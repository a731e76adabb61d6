/**
  What the claim handler does with a pool's subnets, and how a claim's life ends.
 */
module ClaimLifecycle {
  import opened Outcomes
  import opened Prefixes
  import opened AddressLists
  import opened HostRecords
  import opened OwnRecord
  import opened RecordStore
  import opened AddressProtocol
  import opened Pools

  /** Whom the handler allocates for, and how a new record is set up. */
  datatype Target = Target(key: Key, dnsView: string, dnsZone: string)

  function Req(t: Target, s: Subnet): Request {
    Request(t.key, s, t.dnsView, t.dnsZone)
  }

  // ---------- allocation: first fit ----------

  /** `Failed([])` stands for "no valid subnets". */
  datatype Ensured = Got(index: nat, address: Address) | Failed(errs: seq<Error>)

  datatype Attempt = Attempt(world: World, result: Ensured)

  function AfterErrors(errs: seq<Error>, a: Attempt): Attempt {
    if a.result.Failed? then a.(result := Failed(errs + a.result.errs)) else a
  }

  ghost function EnsureFrom(env: Env, w: World, t: Target, subs: seq<PoolSubnet>, i: nat): Attempt
    requires i <= |subs|
    decreases |subs| - i
  {
    if i == |subs| then Attempt(w, Failed([]))
    else if subs[i].prefix.None? then EnsureFrom(env, w, t, subs, i + 1)
    else
      var out := Allocate(env, w, Req(t, subs[i].prefix.value));
      match out.result
      case Ok(a) => Attempt(out.world, Got(i, a))
      case Err(e) => AfterErrors([e], EnsureFrom(env, out.world, t, subs, i + 1))
  }

  /** The world once the first `i` subnets have been tried in turn. */
  ghost function WorldAt(env: Env, w: World, t: Target, subs: seq<PoolSubnet>, i: nat): World
    requires i <= |subs|
  {
    if i == 0 then w
    else
      var v := WorldAt(env, w, t, subs, i - 1);
      if subs[i - 1].prefix.None? then v else Allocate(env, v, Req(t, subs[i - 1].prefix.value)).world
  }

  ghost function Tried(env: Env, w: World, t: Target, subs: seq<PoolSubnet>, i: nat): Outcome<Address>
    requires i < |subs| && subs[i].prefix.Some?
  {
    Allocate(env, WorldAt(env, w, t, subs, i), Req(t, subs[i].prefix.value))
  }

  ghost predicate Unserved(env: Env, w: World, t: Target, subs: seq<PoolSubnet>, i: nat)
    requires i < |subs|
  {
    subs[i].prefix.Some? ==> Tried(env, w, t, subs, i).result.Err?
  }

  /** The errors of subnets `i` on, in the order of the pool. */
  ghost function ErrorsFrom(env: Env, w: World, t: Target, subs: seq<PoolSubnet>, i: nat): seq<Error>
    requires i <= |subs| && forall j | i <= j < |subs| :: Unserved(env, w, t, subs, j)
    decreases |subs| - i
  {
    if i == |subs| then []
    else if subs[i].prefix.None? then ErrorsFrom(env, w, t, subs, i + 1)
    else
      assert Unserved(env, w, t, subs, i);
      [Tried(env, w, t, subs, i).result.error] + ErrorsFrom(env, w, t, subs, i + 1)
  }

  /** `out` took the first served subnet from the i-th on, or failed because there is none. */
  ghost predicate IsFirstFit(env: Env, w: World, t: Target, subs: seq<PoolSubnet>, i: nat, out: Attempt)
    requires i <= |subs|
  {
    match out.result
    case Got(k, a) =>
      && i <= k < |subs| && subs[k].prefix.Some?
      && Tried(env, w, t, subs, k) == Outcome(out.world, Ok(a))
      && Contains(subs[k].prefix.value, a)
      && forall j | i <= j < k :: Unserved(env, w, t, subs, j)
    case Failed(errs) =>
      && (forall j | i <= j < |subs| :: Unserved(env, w, t, subs, j))
      && errs == ErrorsFrom(env, w, t, subs, i)
      && out.world == WorldAt(env, w, t, subs, |subs|)
  }

  lemma {:induction false} FirstFitFrom(env: Env, w: World, t: Target, subs: seq<PoolSubnet>, i: nat)
    requires i <= |subs|
    ensures IsFirstFit(env, w, t, subs, i, EnsureFrom(env, WorldAt(env, w, t, subs, i), t, subs, i))
    decreases |subs| - i
  {
    hide Allocate;
    if i < |subs| {
      var v := WorldAt(env, w, t, subs, i);
      FirstFitFrom(env, w, t, subs, i + 1);
      var rest := EnsureFrom(env, WorldAt(env, w, t, subs, i + 1), t, subs, i + 1);
      if subs[i].prefix.None? {
        assert Unserved(env, w, t, subs, i);
        assert EnsureFrom(env, v, t, subs, i) == rest;
      } else {
        var out := Tried(env, w, t, subs, i);
        AllocatedInSubnet(env, v, Req(t, subs[i].prefix.value));
        if out.result.Err? {
          assert Unserved(env, w, t, subs, i);
          assert EnsureFrom(env, v, t, subs, i) == AfterErrors([out.result.error], rest);
        } else {
          assert EnsureFrom(env, v, t, subs, i) == Attempt(out.world, Got(i, out.result.value));
        }
      }
    }
  }

  lemma {:induction false} AllocatedInSubnet(env: Env, w: World, req: Request)
    ensures var out := Allocate(env, w, req);
      out.result.Ok? ==>
        Contains(req.subnet, out.result.value)
        && OwnFirst(OwnOf(out.world.store, req.key), req.subnet) == Some(out.result.value)
  {
    AllocateAsSeen(env, w, req);
    AllocateServes(OwnOf(w.store, req.key), req, AnswerOf(env, w, req));
  }

  /**
    First fit: the handler takes the first subnet that parses and is served, and reports the
    errors of all that parse, in order, exactly when none is served.
   */
  lemma {:induction false} FirstFit(env: Env, w: World, t: Target, subs: seq<PoolSubnet>)
    ensures var out := EnsureFrom(env, w, t, subs, 0);
      IsFirstFit(env, w, t, subs, 0, out)
      && (out.result == Failed([]) <==> Parsed(subs) == {})
      && (out.result.Failed? ==>
            && |out.result.errs| == ParsedBefore(subs, |subs|)
            && forall j | 0 <= j < |subs| && subs[j].prefix.Some? ::
                 Tried(env, w, t, subs, j).result == Err(out.result.errs[PositionOf(subs, j)]))
  {
    hide Allocate;
    FirstFitFrom(env, w, t, subs, 0);
    NothingParsedIff(subs);
    if EnsureFrom(env, w, t, subs, 0).result.Failed? {
      NoErrorsIff(env, w, t, subs, 0);
      ErrorsInOrder(env, w, t, subs, 0);
    }
  }

  /** The position of a subnet among those that parse. */
  function PositionOf(subs: seq<PoolSubnet>, j: nat): (k: nat)
    requires j < |subs| && subs[j].prefix.Some?
    ensures k < ParsedBefore(subs, |subs|)
  {
    ParsedBeforeGrows(subs, j + 1, |subs|);
    ParsedBefore(subs, j)
  }

  /** The errors are those of the subnets that parse, each at its subnet's position. */
  lemma {:induction false} ErrorsInOrder(env: Env, w: World, t: Target, subs: seq<PoolSubnet>, i: nat)
    requires i <= |subs| && forall j | i <= j < |subs| :: Unserved(env, w, t, subs, j)
    ensures var errs, n := ErrorsFrom(env, w, t, subs, i), ParsedBefore(subs, i);
      && |errs| == ParsedBefore(subs, |subs|) - n
      && forall j | i <= j < |subs| && subs[j].prefix.Some? ::
           var k := PositionOf(subs, j) - n;
           0 <= k < |errs| && Tried(env, w, t, subs, j).result == Err(errs[k])
    decreases |subs| - i
  {
    hide Allocate;
    if i < |subs| {
      ErrorsInOrder(env, w, t, subs, i + 1);
      assert Unserved(env, w, t, subs, i);
      forall j | i <= j < |subs| && subs[j].prefix.Some?
        ensures PositionOf(subs, j) >= ParsedBefore(subs, i)
      {
        ParsedBeforeGrows(subs, i, j);
      }
    }
  }

  // ---------- how a new host is set up ----------

  /** The record that the target asks for. */
  ghost predicate SetUpFor(rec: Record, t: Target) {
    && rec.name == t.key.name && rec.networkView == (if t.key.view == "" then "default" else t.key.view)
    && (rec.enableDns <==> t.dnsZone != "")
    && rec.dnsView == if t.dnsZone != "" && t.dnsView != "" then Some(t.dnsView) else None
  }

  lemma {:induction false} SetUpAt(env: Env, w: World, t: Target, subs: seq<PoolSubnet>, n: nat)
    requires n <= |subs| && OwnOf(w.store, t.key).Absent?
    ensures var own := OwnOf(WorldAt(env, w, t, subs, n).store, t.key);
      own.Absent? || (own.Single? && SetUpFor(own.rec, t))
  {
    hide Allocate, OwnAllocate, AnswerOf, OwnOf;
    if n > 0 {
      SetUpAt(env, w, t, subs, n - 1);
      if subs[n - 1].prefix.Some? {
        var u, req := WorldAt(env, w, t, subs, n - 1), Req(t, subs[n - 1].prefix.value);
        AllocateAsSeen(env, u, req);
        AllocateSetsUp(OwnOf(u.store, t.key), req, AnswerOf(env, u, req));
      }
    }
  }

  /**
    However many subnets were tried in vain before: a host that had no record gets one with its
    name, in the target's network view, that uses DNS exactly with a zone and then in its view.
   */
  lemma {:induction false} NewHostSetUp(env: Env, w: World, t: Target, subs: seq<PoolSubnet>)
    requires OwnOf(w.store, t.key).Absent?
    ensures var out := EnsureFrom(env, w, t, subs, 0);
      var own := OwnOf(out.world.store, t.key);
      && (out.result.Got? ==> own.Single?) && !own.Several?
      && (own.Single? ==>
            && own.rec.name == t.key.name
            && own.rec.networkView == (if t.key.view == "" then "default" else t.key.view)
            && (own.rec.enableDns <==> t.dnsZone != "")
            && own.rec.dnsView == if t.dnsZone != "" && t.dnsView != "" then Some(t.dnsView) else None)
  {
    hide Allocate, OwnOf;
    FirstFitFrom(env, w, t, subs, 0);
    var out := EnsureFrom(env, w, t, subs, 0);
    if out.result.Got? {
      var k := out.result.index;
      SetUpAt(env, w, t, subs, k + 1);
      AllocatedInSubnet(env, WorldAt(env, w, t, subs, k), Req(t, subs[k].prefix.value));
    } else {
      SetUpAt(env, w, t, subs, |subs|);
    }
  }

  /** The first served subnet decides the whole attempt. */
  lemma {:induction false} PickedOnce(env: Env, w: World, t: Target, subs: seq<PoolSubnet>, k: nat, a: Address)
    requires k < |subs| && subs[k].prefix.Some? && Tried(env, w, t, subs, k).result == Ok(a)
    requires forall j | 0 <= j < k :: Unserved(env, w, t, subs, j)
    ensures EnsureFrom(env, w, t, subs, 0) == Attempt(Tried(env, w, t, subs, k).world, Got(k, a))
  {
    hide Allocate;
    FirstFitFrom(env, w, t, subs, 0);
    assert !Unserved(env, w, t, subs, k);
    var out := EnsureFrom(env, w, t, subs, 0);
    assert out.result.Got? && (out.result.index < k ==> Unserved(env, w, t, subs, out.result.index));
  }

  lemma {:induction false} NothingParsedIff(subs: seq<PoolSubnet>)
    ensures Parsed(subs) == {} <==> forall j | 0 <= j < |subs| :: subs[j].prefix.None?
  {
    forall j | 0 <= j < |subs| && subs[j].prefix.Some?
      ensures subs[j].prefix.value in Parsed(subs)
    {
    }
  }

  lemma {:induction false} NoErrorsIff(env: Env, w: World, t: Target, subs: seq<PoolSubnet>, i: nat)
    requires i <= |subs| && forall j | i <= j < |subs| :: Unserved(env, w, t, subs, j)
    ensures ErrorsFrom(env, w, t, subs, i) == [] <==> forall j | i <= j < |subs| :: subs[j].prefix.None?
    decreases |subs| - i
  {
    if i < |subs| {
      NoErrorsIff(env, w, t, subs, i + 1);
    }
  }

  // ---------- conservation through an attempt ----------

  /** What an attempt can and cannot have changed for its host. */
  lemma {:induction false} EnsureConserves(env: Env, w: World, t: Target, subs: seq<PoolSubnet>, i: nat)
    requires i <= |subs|
    ensures var before, after := OwnOf(w.store, t.key), OwnOf(EnsureFrom(env, w, t, subs, i).world.store, t.key);
      Clean(after, Parsed(subs)) == Clean(before, Parsed(subs))
      && (SoundOwn(before, Parsed(subs)) ==> SoundOwn(after, Parsed(subs)))
    decreases |subs| - i
  {
    hide Allocate, OwnAllocate, Clean, SoundOwn, Honest, AnswerOf;
    if i < |subs| {
      if subs[i].prefix.None? {
        EnsureConserves(env, w, t, subs, i + 1);
      } else {
        var req := Req(t, subs[i].prefix.value);
        assert req.subnet in Parsed(subs);
        var own, a := OwnOf(w.store, t.key), AnswerOf(env, w, req);
        AllocateAsSeen(env, w, req);
        AllocateConserves(own, req, a, Parsed(subs));
        if SoundOwn(own, Parsed(subs)) {
          AllocateKeepsSound(own, req, a, Parsed(subs));
        }
        EnsureConserves(env, Allocate(env, w, req).world, t, subs, i + 1);
      }
    }
  }

  lemma {:induction false} EnsureIsLawful(env: Env, w: World, t: Target, subs: seq<PoolSubnet>, i: nat)
    requires i <= |subs| && Parsed(subs) <= env.pool
    ensures Continues(w, EnsureFrom(env, w, t, subs, i).world, env.pool)
    decreases |subs| - i
  {
    hide Allocate, Continues;
    ContinuesSelf(w, env.pool);
    if i < |subs| {
      if subs[i].prefix.None? {
        EnsureIsLawful(env, w, t, subs, i + 1);
      } else {
        var req := Req(t, subs[i].prefix.value);
        assert req.subnet in Parsed(subs);
        var next := Allocate(env, w, req).world;
        AllocateIsLawful(env, w, req);
        EnsureIsLawful(env, next, t, subs, i + 1);
        ContinuesTrans(w, next, EnsureFrom(env, next, t, subs, i + 1).world, env.pool);
      }
    }
  }

  // ---------- release ----------

  /** The world after a pass over the subnets, and the positions whose client call failed. */
  datatype Passed = Passed(world: World, failed: set<nat>)

  ghost function ReleaseFrom(env: Env, w: World, key: Key, subs: seq<PoolSubnet>, i: nat): Passed
    requires i <= |subs|
    decreases |subs| - i
  {
    if i == |subs| then Passed(w, {})
    else if subs[i].prefix.None? then ReleaseFrom(env, w, key, subs, i + 1)
    else
      var out := Release(env, w, key, subs[i].prefix.value);
      var rest := ReleaseFrom(env, out.world, key, subs, i + 1);
      if out.result.Err? then rest.(failed := {i} + rest.failed) else rest
  }

  /** The subnets, in order, whose release took effect, whether or not it reported so. */
  ghost function Effective(env: Env, w: World, key: Key, subs: seq<PoolSubnet>, i: nat): seq<Subnet>
    requires i <= |subs|
    decreases |subs| - i
  {
    if i == |subs| then []
    else if subs[i].prefix.None? then Effective(env, w, key, subs, i + 1)
    else
      var s := subs[i].prefix.value;
      var rest := Effective(env, Release(env, w, key, s).world, key, subs, i + 1);
      if FaultAt(env, w) == Fine
         && (OwnFirst(OwnOf(w.store, key), s).None? || env.moves(w.clock + 1).fault != FailsBefore)
      then [s] + rest else rest
  }

  /** Seen from its host, a pass strips exactly the subnets whose release took effect. */
  lemma {:induction false} PassAsSeen(env: Env, w: World, key: Key, subs: seq<PoolSubnet>, i: nat)
    requires i <= |subs|
    ensures var out, eff := ReleaseFrom(env, w, key, subs, i), Effective(env, w, key, subs, i);
      && OwnOf(out.world.store, key) == StripEach(OwnOf(w.store, key), eff)
      && (forall s | s in eff :: s in Parsed(subs))
      && (!OwnOf(w.store, key).Several? ==>
            forall j | i <= j < |subs| && j !in out.failed && subs[j].prefix.Some? :: subs[j].prefix.value in eff)
      && (forall j | j in out.failed :: i <= j < |subs|)
    decreases |subs| - i
  {
    hide Release;
    if i < |subs| {
      if subs[i].prefix.None? {
        PassAsSeen(env, w, key, subs, i + 1);
      } else {
        var s := subs[i].prefix.value;
        var out := Release(env, w, key, s);
        assert s in Parsed(subs);
        ReleaseAsSeen(env, w, key, s);
        PassAsSeen(env, out.world, key, subs, i + 1);
        var rest := Effective(env, out.world, key, subs, i + 1);
        assert ([s] + rest)[1..] == rest;
      }
    }
  }

  lemma {:induction false} PassConserves(env: Env, w: World, key: Key, subs: seq<PoolSubnet>, i: nat)
    requires i <= |subs|
    ensures var before, after := OwnOf(w.store, key), OwnOf(ReleaseFrom(env, w, key, subs, i).world.store, key);
      Clean(after, Parsed(subs)) == Clean(before, Parsed(subs))
      && (SoundOwn(before, Parsed(subs)) ==> SoundOwn(after, Parsed(subs)))
    decreases |subs| - i
  {
    hide Release, OwnRelease, Clean, SoundOwn;
    if i < |subs| {
      if subs[i].prefix.None? {
        PassConserves(env, w, key, subs, i + 1);
      } else {
        var s := subs[i].prefix.value;
        assert s in Parsed(subs);
        var own, f, g := OwnOf(w.store, key), FaultAt(env, w), env.moves(w.clock + 1).fault;
        ReleaseAsSeen(env, w, key, s);
        ReleaseConserves(own, s, f, g, Parsed(subs));
        if SoundOwn(own, Parsed(subs)) {
          ReleaseKeepsSound(own, s, f, g, Parsed(subs));
        }
        PassConserves(env, Release(env, w, key, s).world, key, subs, i + 1);
      }
    }
  }

  lemma {:induction false} PassIsLawful(env: Env, w: World, key: Key, subs: seq<PoolSubnet>, i: nat)
    requires i <= |subs|
    ensures Continues(w, ReleaseFrom(env, w, key, subs, i).world, env.pool)
    decreases |subs| - i
  {
    hide Release, Continues;
    ContinuesSelf(w, env.pool);
    if i < |subs| {
      if subs[i].prefix.None? {
        PassIsLawful(env, w, key, subs, i + 1);
      } else {
        var next := Release(env, w, key, subs[i].prefix.value).world;
        ReleaseIsLawful(env, w, key, subs[i].prefix.value);
        PassIsLawful(env, next, key, subs, i + 1);
        ContinuesTrans(w, next, ReleaseFrom(env, next, key, subs, i + 1).world, env.pool);
      }
    }
  }

  /**
    Release under partial failure: each subnet whose call did not fail ends without an address
    of the host, if the record held at most one there; and the record is gone exactly when
    the subnets that were released left nothing of it.
   */
  lemma {:induction false} PartialRelease(env: Env, w: World, key: Key, subs: seq<PoolSubnet>, j: nat)
    requires OwnOf(w.store, key).Single? && SoundOwn(OwnOf(w.store, key), Parsed(subs))
    requires j < |subs| && subs[j].prefix.Some? && j !in ReleaseFrom(env, w, key, subs, 0).failed
    requires var s := subs[j].prefix.value; CountIn(OwnOf(w.store, key).rec.List(s.family), s) <= 1
    ensures var own := OwnOf(w.store, key);
      var eff := Effective(env, w, key, subs, 0);
      var after := OwnOf(ReleaseFrom(env, w, key, subs, 0).world.store, key);
      && OwnFirst(after, subs[j].prefix.value).None?
      && (after.Absent? <==> ReleaseEach(own.rec.v4, eff) == [] && ReleaseEach(own.rec.v6, eff) == [])
      && (after.Single? ==> after.ref == own.ref && after.rec.v4 == ReleaseEach(own.rec.v4, eff)
                            && after.rec.v6 == ReleaseEach(own.rec.v6, eff))
  {
    var own, eff, s := OwnOf(w.store, key), Effective(env, w, key, subs, 0), subs[j].prefix.value;
    PassAsSeen(env, w, key, subs, 0);
    StripEachOnLists(own, eff);
    ReleaseEachCounts(own.rec.List(s.family), eff, s);
    FirstInSpec(ReleaseEach(own.rec.List(s.family), eff), s);
  }

  /** A pass without failed calls leaves exactly what the record holds outside the pool. */
  lemma {:induction false} FullRelease(env: Env, w: World, key: Key, subs: seq<PoolSubnet>)
    requires SoundOwn(OwnOf(w.store, key), Parsed(subs))
    requires ReleaseFrom(env, w, key, subs, 0).failed == {}
    ensures OwnOf(ReleaseFrom(env, w, key, subs, 0).world.store, key) == Clean(OwnOf(w.store, key), Parsed(subs))
  {
    var own, eff := OwnOf(w.store, key), Effective(env, w, key, subs, 0);
    PassAsSeen(env, w, key, subs, 0);
    if own.Several? {
      StripEachOnLists(own, eff);
    } else {
      FullPassCleans(own, eff, Parsed(subs));
    }
  }

  // ---------- alone in the store ----------

  /** No other host ever acts. Calls may still fail. */
  ghost predicate Alone(env: Env) {
    forall n: nat :: env.moves(n).others.None?
  }

  lemma {:induction false} EnsureKeepsOthers(env: Env, w: World, t: Target, subs: seq<PoolSubnet>, i: nat)
    requires Alone(env) && i <= |subs|
    ensures Others(EnsureFrom(env, w, t, subs, i).world.store, t.key) == Others(w.store, t.key)
    decreases |subs| - i
  {
    hide Allocate, Others;
    if i < |subs| {
      if subs[i].prefix.None? {
        EnsureKeepsOthers(env, w, t, subs, i + 1);
      } else {
        var req := Req(t, subs[i].prefix.value);
        QuietAllocateKeepsOthers(env, w, req);
        EnsureKeepsOthers(env, Allocate(env, w, req).world, t, subs, i + 1);
      }
    }
  }

  lemma {:induction false} PassKeepsOthers(env: Env, w: World, key: Key, subs: seq<PoolSubnet>, i: nat)
    requires Alone(env) && i <= |subs|
    ensures Others(ReleaseFrom(env, w, key, subs, i).world.store, key) == Others(w.store, key)
    decreases |subs| - i
  {
    hide Release, Others;
    if i < |subs| {
      if subs[i].prefix.None? {
        PassKeepsOthers(env, w, key, subs, i + 1);
      } else {
        QuietReleaseKeepsOthers(env, w, key, subs[i].prefix.value);
        PassKeepsOthers(env, Release(env, w, key, subs[i].prefix.value).world, key, subs, i + 1);
      }
    }
  }
}
