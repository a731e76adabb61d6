/**
  The life of a claim: allocation attempts that may fail anywhere, then releases, with other
  hosts at work throughout.
 */
module ClaimRuns {
  import opened Outcomes
  import opened OwnRecord
  import opened RecordStore
  import opened ClaimHostname
  import opened Pools
  import opened ClaimLifecycle

  function TargetOf(pool: PoolSpec, defaultDNSView: string, hostname: string): Target {
    Target(Key(hostname, pool.networkView),
           DetermineDNSView(pool.dnsView, defaultDNSView, pool.networkView), pool.dnsZone)
  }

  /** What stays fixed over a claim's life. Kubernetes objects have a name. */
  datatype Setup = Setup(name: string, pool: PoolSpec, defaultDNSView: string)

  /** What changes: the store, and the hostname annotation. */
  datatype Life = Life(world: World, annotation: string)

  function KeyOf(c: Setup, hostname: string): Key {
    Key(hostname, c.pool.networkView)
  }

  ghost function AfterEnsure(env: Env, l: Life, c: Setup, resolved: Option<string>): Life {
    var h := HostnameOf(l.annotation, c.pool.dnsZone, c.name, resolved);
    if h.None? then l
    else if !HasSuffix(h.value, c.pool.dnsZone) then Life(l.world, h.value)
    else
      Life(EnsureFrom(env, l.world, TargetOf(c.pool, c.defaultDNSView, h.value), c.pool.subnets, 0).world, h.value)
  }

  ghost function AfterRelease(env: Env, l: Life, c: Setup, resolved: Option<string>): Life {
    var h := HostnameOf(l.annotation, c.pool.dnsZone, c.name, resolved);
    if h.None? || |c.pool.subnets| == 0 then l
    else l.(world := ReleaseFrom(env, l.world, KeyOf(c, h.value), c.pool.subnets, 0).world)
  }

  /**
    One call of the handler. The pool, its DNS zone and what the owner search resolves may
    differ from call to call.
   */
  datatype Turn = Ensures(setup: Setup, resolved: Option<string>) | Releases(setup: Setup, resolved: Option<string>)

  ghost function AfterTurn(env: Env, l: Life, turn: Turn): Life {
    if turn.Ensures? then AfterEnsure(env, l, turn.setup, turn.resolved)
    else AfterRelease(env, l, turn.setup, turn.resolved)
  }

  ghost function AfterTurns(env: Env, l: Life, turns: seq<Turn>): Life {
    if turns == [] then l else AfterTurn(env, AfterTurns(env, l, turns[..|turns| - 1]), turns[|turns| - 1])
  }

  /** The hostname that a call made in this state works with. */
  function HostnameAt(l: Life, turn: Turn): Option<string> {
    HostnameOf(l.annotation, turn.setup.pool.dnsZone, turn.setup.name, turn.resolved)
  }

  // ---------- hostname stability ----------

  /**
    Once the annotation is set it never changes, and every later allocation or release uses the
    same hostname, whatever happens to the owners, the pool or its DNS zone.
   */
  lemma {:induction false} HostnameIsStable(env: Env, l: Life, turns: seq<Turn>, next: Turn)
    requires l.annotation != ""
    ensures AfterTurns(env, l, turns).annotation == l.annotation
    ensures HostnameAt(AfterTurns(env, l, turns), next) == Some(l.annotation)
  {
    hide EnsureFrom, ReleaseFrom;
    if turns != [] {
      HostnameIsStable(env, l, turns[..|turns| - 1], turns[|turns| - 1]);
    }
  }

  /** From the first allocation attempt that finds a hostname on, that one is used. */
  lemma {:induction false} FirstEnsurePins(env: Env, l: Life, first: Turn, turns: seq<Turn>, next: Turn)
    requires first.Ensures? && first.setup.name != "" && HostnameAt(l, first).Some?
    ensures HostnameAt(AfterTurns(env, AfterTurn(env, l, first), turns), next) == HostnameAt(l, first)
  {
    hide EnsureFrom, ReleaseFrom;
    PinnedHostname(l.annotation, first.setup.pool.dnsZone, first.setup.name, first.resolved,
                   first.setup.pool.dnsZone, first.resolved);
    HostnameIsStable(env, AfterTurn(env, l, first), turns, next);
  }

  // ---------- conservation over a life ----------

  /** What a call of this claim keeps, for the host whose name is pinned. */
  ghost predicate Conserved(l: Life, m: Life, c: Setup, hostname: string, env: Env) {
    var key, subs := KeyOf(c, hostname), Parsed(c.pool.subnets);
    && Clean(OwnOf(m.world.store, key), subs) == Clean(OwnOf(l.world.store, key), subs)
    && (SoundOwn(OwnOf(l.world.store, key), subs) ==> SoundOwn(OwnOf(m.world.store, key), subs))
    && (subs <= env.pool ==> Continues(l.world, m.world, env.pool))
    && (Alone(env) ==> Others(m.world.store, key) == Others(l.world.store, key))
  }

  lemma {:induction false} ConservedTrans(l: Life, m: Life, n: Life, c: Setup, hostname: string, env: Env)
    requires Conserved(l, m, c, hostname, env) && Conserved(m, n, c, hostname, env)
    ensures Conserved(l, n, c, hostname, env)
  {
    hide Continues, Clean, SoundOwn;
    if Parsed(c.pool.subnets) <= env.pool {
      ContinuesTrans(l.world, m.world, n.world, env.pool);
    }
  }

  lemma {:induction false} EnsureIsConserved(
      env: Env, l: Life, c: Setup, resolved: Option<string>, hostname: string)
    requires c.name != "" && hostname != "" && AfterEnsure(env, l, c, resolved).annotation == hostname
    ensures Conserved(l, AfterEnsure(env, l, c, resolved), c, hostname, env)
  {
    hide EnsureFrom, Clean, SoundOwn, Continues, Others, OwnOf;
    ContinuesSelf(l.world, env.pool);
    var t := TargetOf(c.pool, c.defaultDNSView, hostname);
    EnsureConserves(env, l.world, t, c.pool.subnets, 0);
    if Parsed(c.pool.subnets) <= env.pool {
      EnsureIsLawful(env, l.world, t, c.pool.subnets, 0);
    }
    if Alone(env) {
      EnsureKeepsOthers(env, l.world, t, c.pool.subnets, 0);
    }
  }

  lemma {:induction false} ReleaseIsConserved(env: Env, l: Life, c: Setup, resolved: Option<string>)
    requires l.annotation != ""
    ensures AfterRelease(env, l, c, resolved).annotation == l.annotation
    ensures Conserved(l, AfterRelease(env, l, c, resolved), c, l.annotation, env)
  {
    hide ReleaseFrom, Clean, SoundOwn, Continues, Others, OwnOf;
    ContinuesSelf(l.world, env.pool);
    PassConserves(env, l.world, KeyOf(c, l.annotation), c.pool.subnets, 0);
    PassIsLawful(env, l.world, KeyOf(c, l.annotation), c.pool.subnets, 0);
    if Alone(env) {
      PassKeepsOthers(env, l.world, KeyOf(c, l.annotation), c.pool.subnets, 0);
    }
  }

  lemma {:induction false} NothingIsConserved(l: Life, c: Setup, hostname: string, env: Env)
    ensures Conserved(l, l, c, hostname, env)
  {
  }

  /**
    The turns of one claim on one pool. A release before any hostname is pinned would work on
    whatever name the owner search gives it just then; the claim releases only what it pinned.
   */
  ghost predicate OfClaim(env: Env, start: Life, c: Setup, turns: seq<Turn>) {
    c.name != "" && forall i | 0 <= i < |turns| ::
      turns[i].setup == c && (turns[i].Releases? ==> AfterTurns(env, start, turns[..i]).annotation != "")
  }

  lemma {:induction false} OfClaimPrefix(env: Env, start: Life, c: Setup, turns: seq<Turn>)
    requires turns != [] && OfClaim(env, start, c, turns)
    ensures OfClaim(env, start, c, turns[..|turns| - 1])
  {
    var init := turns[..|turns| - 1];
    forall i | 0 <= i < |init|
      ensures init[i] == turns[i] && init[..i] == turns[..i]
    {
    }
  }

  /** One turn: it does nothing, or it conserves what belongs to the hostname pinned after it. */
  lemma {:induction false} TurnIsConserved(env: Env, l: Life, turn: Turn)
    requires turn.setup.name != "" && (turn.Releases? ==> l.annotation != "")
    ensures var m := AfterTurn(env, l, turn);
      && (m.annotation == "" ==> m == l)
      && (m.annotation != "" ==> Conserved(l, m, turn.setup, m.annotation, env))
      && (l.annotation != "" ==> m.annotation == l.annotation)
  {
    hide EnsureFrom, ReleaseFrom, Conserved;
    var c, m := turn.setup, AfterTurn(env, l, turn);
    var h := HostnameAt(l, turn);
    if h.None? {
      NothingIsConserved(l, c, m.annotation, env);
    } else {
      PinnedHostname(l.annotation, c.pool.dnsZone, c.name, turn.resolved, c.pool.dnsZone, turn.resolved);
      if turn.Ensures? {
        EnsureIsConserved(env, l, c, turn.resolved, h.value);
      } else {
        ReleaseIsConserved(env, l, c, turn.resolved);
      }
    }
  }

  /** While no hostname is pinned nothing has happened; what is pinned is conserved from the start. */
  lemma {:induction false} TurnsAreConserved(env: Env, l: Life, c: Setup, turns: seq<Turn>)
    requires OfClaim(env, l, c, turns)
    ensures var m := AfterTurns(env, l, turns);
      if m.annotation == "" then m == l else Conserved(l, m, c, m.annotation, env)
  {
    hide AfterTurn, Conserved, OfClaim;
    var m := AfterTurns(env, l, turns);
    if turns == [] {
      NothingIsConserved(l, c, m.annotation, env);
    } else {
      var init, last := turns[..|turns| - 1], turns[|turns| - 1];
      var mid := AfterTurns(env, l, init);
      OfClaimPrefix(env, l, c, turns);
      TurnsAreConserved(env, l, c, init);
      LastOfClaim(env, l, c, turns);
      TurnIsConserved(env, mid, last);
      if mid.annotation != "" {
        ConservedTrans(l, mid, m, c, m.annotation, env);
      }
    }
  }

  lemma {:induction false} LastOfClaim(env: Env, start: Life, c: Setup, turns: seq<Turn>)
    requires turns != [] && OfClaim(env, start, c, turns)
    ensures var init, last := turns[..|turns| - 1], turns[|turns| - 1];
      && c.name != "" && last.setup == c
      && (last.Releases? ==> AfterTurns(env, start, init).annotation != "")
  {
  }

  /** While the annotation is not set, no call of the claim has touched the store. */
  lemma {:induction false} UnpinnedMeansUntouched(env: Env, l: Life, c: Setup, turns: seq<Turn>)
    requires OfClaim(env, l, c, turns) && AfterTurns(env, l, turns).annotation == ""
    ensures AfterTurns(env, l, turns) == l
  {
    TurnsAreConserved(env, l, c, turns);
  }

  /**
    Lifecycle. Any allocation attempts and releases in any order, every connector call of them
    failing before or after its effect or not at all, with other hosts at work in between; then
    one release in which no client call fails. The host is left with exactly what its record
    held outside the pool, or with no record if that is nothing. Subnets may overlap. A claim
    whose hostname was never pinned has touched nothing.
   */
  lemma {:induction false} Lifecycle(env: Env, start: Life, c: Setup, turns: seq<Turn>)
    requires OfClaim(env, start, c, turns)
    ensures var before := AfterTurns(env, start, turns);
      if before.annotation == "" then before == start
      else
        var key, subs := KeyOf(c, before.annotation), Parsed(c.pool.subnets);
        var last := ReleaseFrom(env, before.world, key, c.pool.subnets, 0);
        SoundOwn(OwnOf(start.world.store, key), subs) && last.failed == {} ==>
          OwnOf(last.world.store, key) == Clean(OwnOf(start.world.store, key), subs)
          && (subs <= env.pool ==> Continues(start.world, last.world, env.pool))
          && (Alone(env) ==> Others(last.world.store, key) == Others(start.world.store, key))
  {
    hide AfterTurn, ReleaseFrom, Clean, SoundOwn, Continues, OfClaim;
    var before := AfterTurns(env, start, turns);
    TurnsAreConserved(env, start, c, turns);
    if before.annotation != "" {
      var key, subs := KeyOf(c, before.annotation), Parsed(c.pool.subnets);
      var last := ReleaseFrom(env, before.world, key, c.pool.subnets, 0);
      if SoundOwn(OwnOf(start.world.store, key), subs) && last.failed == {} {
        FullRelease(env, before.world, key, c.pool.subnets);
        PassIsLawful(env, before.world, key, c.pool.subnets, 0);
        if Alone(env) {
          PassKeepsOthers(env, before.world, key, c.pool.subnets, 0);
        }
        if subs <= env.pool {
          ContinuesTrans(start.world, before.world, last.world, env.pool);
        }
      }
    }
  }
}
