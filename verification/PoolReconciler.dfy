/** The finalizer that keeps a pool alive while claims refer to it. */
module PoolReconciler {
  import opened Outcomes
  import opened Prefixes
  import opened PoolIndex
  import opened Pools

  const PROTECT_POOL := "ipam.cluster.x-k8s.io/ProtectPool"

  datatype Condition = Unset | Ready | NotReady(reason: string)

  datatype Pool = Pool(
    kind: string, namespace: string, name: string, finalizers: seq<string>, deleting: bool,
    spec: PoolSpec, ready: Condition)
  {
    function Ref(): PoolRef { PoolRef(IPAM_GROUP, kind, name) }
  }

  /** The answers a reconcile gets from the API server and from Infoblox. */
  datatype Answers = Answers(
    getFails: bool, listFails: bool, patchFails: bool,
    clientFails: bool, defaultNetworkView: string, defaultDNSView: string,
    viewExists: string -> bool, dnsViewExists: string -> bool, networkExists: (string, Subnet) -> bool)

  function Without(finalizers: seq<string>, f: string): seq<string> {
    if finalizers == [] then []
    else if finalizers[0] == f then Without(finalizers[1..], f)
    else [finalizers[0]] + Without(finalizers[1..], f)
  }

  lemma {:induction false} WithoutSpec(finalizers: seq<string>, f: string)
    ensures forall x :: x in Without(finalizers, f) <==> x in finalizers && x != f
  {
    if finalizers != [] {
      WithoutSpec(finalizers[1..], f);
    }
  }

  // ---------- checking a live pool ----------

  function WithView(spec: PoolSpec, a: Answers): PoolSpec {
    if spec.networkView == "" then spec.(networkView := a.defaultNetworkView) else spec
  }

  /** The subnet parses and has a network in the view. */
  predicate SubnetGood(spec: PoolSpec, a: Answers, i: nat)
    requires i < |spec.subnets|
  {
    spec.subnets[i].prefix.Some? && a.networkExists(spec.networkView, spec.subnets[i].prefix.value)
  }

  ghost predicate ViewsGood(spec: PoolSpec, a: Answers) {
    && !a.clientFails && a.viewExists(spec.networkView)
    && a.dnsViewExists(DetermineDNSView(spec.dnsView, a.defaultDNSView, spec.networkView))
  }

  ghost predicate AllGood(spec: PoolSpec, a: Answers) {
    var s := WithView(spec, a);
    ViewsGood(s, a) && forall i | 0 <= i < |s.subnets| :: SubnetGood(s, a, i)
  }

  /** The first subnet that is not good. */
  ghost predicate FirstBad(spec: PoolSpec, a: Answers, i: nat) {
    i < |spec.subnets| && !SubnetGood(spec, a, i) && forall j | 0 <= j < i :: SubnetGood(spec, a, j)
  }

  /** What checking a live pool makes of it, and whether it reports an error. */
  ghost predicate CheckedAs(pool: Pool, a: Answers, checked: Pool, failed: bool) {
    && checked == pool.(spec := checked.spec, ready := checked.ready)
    && checked.spec == (if a.clientFails then pool.spec else WithView(pool.spec, a))
    && (AllGood(pool.spec, a) ==> checked.ready == Ready && !failed)
    && (a.clientFails ==> checked.ready == NotReady("AuthenticationFailed") && failed)
    && (!a.clientFails && !ViewsGood(checked.spec, a) ==>
          !failed && checked.ready == NotReady(
            if a.viewExists(checked.spec.networkView) then "DNSViewNotFound" else "NetworkViewNotFound"))
    && forall i: nat :: ViewsGood(checked.spec, a) && FirstBad(checked.spec, a, i) ==>
         if checked.spec.subnets[i].prefix.None? then failed && checked.ready == pool.ready
         else !failed && checked.ready == NotReady("NetworkNotFound")
  }

  /** Sets the network view and the Ready condition; true if an error is returned. */
  method Check(pool: Pool, a: Answers) returns (checked: Pool, failed: bool)
    ensures CheckedAs(pool, a, checked, failed)
    ensures
      var view := if pool.spec.networkView == "" then a.defaultNetworkView else pool.spec.networkView;
      var dnsView :=
        if pool.spec.dnsView != "" then pool.spec.dnsView
        else if a.defaultDNSView != "" then a.defaultDNSView
        else if view == "" || view == "default" then "default"
        else "default." + view;
      checked.ready == Ready && !failed <==>
        (&& !a.clientFails && a.viewExists(view) && a.dnsViewExists(dnsView)
         && forall i | 0 <= i < |pool.spec.subnets| ::
           pool.spec.subnets[i].prefix.Some? && a.networkExists(view, pool.spec.subnets[i].prefix.value))
  {
    checked, failed := pool, false;
    if a.clientFails {
      return checked.(ready := NotReady("AuthenticationFailed")), true;
    }
    if checked.spec.networkView == "" {
      checked := checked.(spec := checked.spec.(networkView := a.defaultNetworkView));
    }
    if !a.viewExists(checked.spec.networkView) {
      return checked.(ready := NotReady("NetworkViewNotFound")), false;
    }
    var dnsView := DetermineDNSView(checked.spec.dnsView, a.defaultDNSView, checked.spec.networkView);
    if dnsView != "" {
      if !a.dnsViewExists(dnsView) {
        return checked.(ready := NotReady("DNSViewNotFound")), false;
      }
    }
    for i := 0 to |checked.spec.subnets|
      invariant forall j | 0 <= j < i :: SubnetGood(checked.spec, a, j)
    {
      assert !SubnetGood(checked.spec, a, i) ==> forall j: nat | FirstBad(checked.spec, a, j) :: j == i;
      var prefix := checked.spec.subnets[i].prefix;
      if prefix.None? {
        return checked, true;
      }
      if !a.networkExists(checked.spec.networkView, prefix.value) {
        return checked.(ready := NotReady("NetworkNotFound")), false;
      }
    }
    assert forall i | 0 <= i < |pool.spec.subnets| :: SubnetGood(checked.spec, a, i) <==>
      pool.spec.subnets[i].prefix.Some? && a.networkExists(checked.spec.networkView, pool.spec.subnets[i].prefix.value);
    checked := checked.(ready := Ready);
  }

  // ---------- the cluster ----------

  /** The pool as the API server stores it, if it is there, and all claims. */
  datatype State = State(pool: Option<Pool>, claims: seq<Claim>)

  /** A deleted object goes once its last finalizer is gone. */
  function Stored(p: Pool): Option<Pool> {
    if p.deleting && p.finalizers == [] then None else Some(p)
  }

  /** The API server never stores a deleted object without finalizers. */
  ghost predicate Stable(s: State) {
    s.pool.Some? ==> Stored(s.pool.value).Some?
  }

  ghost predicate Protected(s: State) {
    s.pool.Some? && PROTECT_POOL in s.pool.value.finalizers
  }

  /** A claim of the IPAM group in the pool's namespace refers to the pool. */
  ghost predicate InUse(s: State) {
    s.pool.Some? && exists c | c in s.claims :: Refers(c, s.pool.value.namespace, s.pool.value.Ref()) && IsIpam(c)
  }

  /** A claim there names a pool of its kind and name, perhaps of another group. */
  ghost predicate Named(s: State) {
    s.pool.Some? && exists c | c in s.claims :: Names(c, s.pool.value.namespace, s.pool.value.Ref()) && IsIpam(c)
  }

  lemma {:induction false} NamedMeansListed(s: State)
    ensures InUse(s) ==> Named(s)
    ensures Named(s) ==> Lookup(s.claims, s.pool.value.namespace, s.pool.value.Ref()) != []
  {
    if Named(s) {
      var p := s.pool.value;
      var c :| c in s.claims && Names(c, p.namespace, p.Ref()) && IsIpam(c);
      NeverMisses(s.claims, p.namespace, p.Ref(), c);
    }
  }

  /** What the object looks like after the work of one reconcile, before it is patched. */
  ghost predicate Acted(p: Pool, claims: seq<Claim>, a: Answers, q: Pool, failed: bool) {
    if !p.deleting && PROTECT_POOL !in p.finalizers then
      q == p.(finalizers := p.finalizers + [PROTECT_POOL]) && !failed
    else if !p.deleting then CheckedAs(p, a, q, failed)
    else if !a.listFails && Lookup(claims, p.namespace, p.Ref()) == [] then
      q == p.(finalizers := Without(p.finalizers, PROTECT_POOL)) && !failed
    else q == p && failed
  }

  /** What one reconcile does to the stored state, and whether it reports an error. */
  ghost predicate ReconcileStep(s: State, a: Answers, t: State, failed: bool) {
    && t.claims == s.claims
    && if s.pool.None? then t == s && !failed
       else if a.getFails || a.patchFails then t == s && failed
       else exists pool :: Acted(s.pool.value, s.claims, a, pool, failed) && t.pool == Stored(pool)
  }

  class Reconciler {
    var state: State

    constructor (state: State)
      ensures this.state == state
    {
      this.state := state;
    }

    method Reconcile(a: Answers) returns (failed: bool)
      requires Stable(state)
      modifies this
      ensures ReconcileStep(old(state), a, state, failed) && Stable(state)
      ensures Named(old(state)) && old(state).pool.value.deleting ==> failed && state == old(state)
      ensures old(state).pool.None? ==> !failed && state == old(state)
      ensures old(state).pool.Some? && (a.getFails || a.patchFails) ==> failed && state == old(state)
      ensures old(state).pool.Some? && old(state).pool.value.deleting && a.listFails ==> failed && state == old(state)
    {
      if state.pool.None? {
        return false;
      }
      if a.getFails {
        return true;
      }
      NamedMeansListed(state);
      var pool;
      pool, failed := Act(state.pool.value, a);
      // deferred: whatever was changed is patched, also after an error
      if a.patchFails {
        return true;
      }
      assert Acted(state.pool.value, state.claims, a, pool, failed);
      assert pool.deleting == state.pool.value.deleting;
      state := state.(pool := Stored(pool));
    }

    method Act(p: Pool, a: Answers) returns (pool: Pool, failed: bool)
      ensures Acted(p, state.claims, a, pool, failed)
    {
      pool, failed := p, false;
      if !pool.deleting {
        if PROTECT_POOL !in pool.finalizers {
          pool := pool.(finalizers := pool.finalizers + [PROTECT_POOL]);
          return;
        }
        pool, failed := Check(pool, a);
        return;
      }
      if a.listFails {
        return pool, true;
      }
      var inUse := ListClaimsReferencingPool(state.claims, pool.namespace, pool.Ref());
      if |inUse| == 0 {
        pool := pool.(finalizers := Without(pool.finalizers, PROTECT_POOL));
        return;
      }
      return pool, true;
    }
  }

  // ---------- what a reconcile does ----------

  /** A live pool that a reconcile meets is protected after it, and keeps its other finalizers. */
  lemma {:induction false} LivePoolIsProtected(s: State, a: Answers, t: State, failed: bool)
    requires ReconcileStep(s, a, t, failed) && s.pool.Some? && !s.pool.value.deleting && !a.getFails && !a.patchFails
    ensures t.pool.Some? && !t.pool.value.deleting && Protected(t)
    ensures var mine, before := "ipam.cluster.x-k8s.io/ProtectPool", s.pool.value.finalizers;
      if mine in before then t.pool.value.finalizers == before
      else t.pool == Some(s.pool.value.(finalizers := before + [mine])) && !failed
  {
  }

  /**
    A live, protected pool is checked: it turns ready exactly if the client, the views and the
    network of every subnet are there, and otherwise tells the first thing that is not.
   */
  lemma {:induction false} LivePoolIsChecked(s: State, a: Answers, t: State, failed: bool)
    requires ReconcileStep(s, a, t, failed) && Protected(s) && !s.pool.value.deleting && !a.getFails && !a.patchFails
    ensures t.pool.Some?
    ensures
      var spec, after := s.pool.value.spec, t.pool.value;
      var view := if spec.networkView == "" then a.defaultNetworkView else spec.networkView;
      var dnsView :=
        if spec.dnsView != "" then spec.dnsView
        else if a.defaultDNSView != "" then a.defaultDNSView
        else if view == "" || view == "default" then "default"
        else "default." + view;
      if a.clientFails then after == s.pool.value.(ready := NotReady("AuthenticationFailed")) && failed
      else
        && after == s.pool.value.(spec := spec.(networkView := view), ready := after.ready)
        && if !a.viewExists(view) then after.ready == NotReady("NetworkViewNotFound") && !failed
           else if !a.dnsViewExists(dnsView) then after.ready == NotReady("DNSViewNotFound") && !failed
           else if forall i | 0 <= i < |spec.subnets| ::
             spec.subnets[i].prefix.Some? && a.networkExists(view, spec.subnets[i].prefix.value)
           then after.ready == Ready && !failed
           else exists i | 0 <= i < |spec.subnets| ::
             && (forall j | 0 <= j < i ::
                   spec.subnets[j].prefix.Some? && a.networkExists(view, spec.subnets[j].prefix.value))
             && if spec.subnets[i].prefix.None? then after.ready == s.pool.value.ready && failed
                else !a.networkExists(view, spec.subnets[i].prefix.value)
                     && after.ready == NotReady("NetworkNotFound") && !failed
  {
    var p, q := s.pool.value, t.pool.value;
    assert CheckedAs(p, a, q, failed);
    if !a.clientFails {
      hide SubnetGood, FirstBad, AllGood;
      var spec := WithView(p.spec, a);
      if ViewsGood(spec, a) {
        SubnetsChecked(p, a, q, failed);
      }
    }
  }

  lemma {:induction false} SubnetsChecked(p: Pool, a: Answers, q: Pool, failed: bool)
    requires CheckedAs(p, a, q, failed) && ViewsGood(WithView(p.spec, a), a)
    ensures var spec, view := p.spec, WithView(p.spec, a).networkView;
      if forall i | 0 <= i < |spec.subnets| ::
        spec.subnets[i].prefix.Some? && a.networkExists(view, spec.subnets[i].prefix.value)
      then q.ready == Ready && !failed
      else exists i | 0 <= i < |spec.subnets| ::
        && (forall j | 0 <= j < i ::
              spec.subnets[j].prefix.Some? && a.networkExists(view, spec.subnets[j].prefix.value))
        && if spec.subnets[i].prefix.None? then q.ready == p.ready && failed
           else !a.networkExists(view, spec.subnets[i].prefix.value)
                && q.ready == NotReady("NetworkNotFound") && !failed
  {
    hide DetermineDNSView;
    var spec := WithView(p.spec, a);
    assert forall j | 0 <= j < |p.spec.subnets| :: SubnetGood(spec, a, j) <==>
      p.spec.subnets[j].prefix.Some? && a.networkExists(spec.networkView, p.spec.subnets[j].prefix.value);
    if exists k | 0 <= k < |spec.subnets| :: !SubnetGood(spec, a, k) {
      var i := FirstBadIndex(spec, a, |spec.subnets|);
      assert q.spec == spec && FirstBad(q.spec, a, i);
      assert forall j | 0 <= j < i :: SubnetGood(spec, a, j);
      assert !SubnetGood(spec, a, i) && p.spec.subnets[i] == spec.subnets[i];
    } else {
      assert AllGood(p.spec, a);
    }
  }

  lemma {:induction false} FirstBadIndex(spec: PoolSpec, a: Answers, n: nat) returns (i: nat)
    requires n <= |spec.subnets| && exists k | 0 <= k < n :: !SubnetGood(spec, a, k)
    ensures FirstBad(spec, a, i)
  {
    if exists k | 0 <= k < n - 1 :: !SubnetGood(spec, a, k) {
      i := FirstBadIndex(spec, a, n - 1);
    } else {
      i := n - 1;
    }
  }

  /** Whatever a reconcile does, the finalizers of others, the claims and the spec stay. */
  lemma {:induction false} ReconcileKeepsOthers(s: State, a: Answers, t: State, failed: bool)
    requires ReconcileStep(s, a, t, failed) && s.pool.Some?
    ensures t.claims == s.claims
    ensures forall f | f in s.pool.value.finalizers && f != "ipam.cluster.x-k8s.io/ProtectPool" ::
      t.pool.Some? && f in t.pool.value.finalizers
    ensures t.pool.Some? ==>
      var p, q := s.pool.value, t.pool.value;
      && q == p.(finalizers := q.finalizers, ready := q.ready, spec := p.spec.(networkView := q.spec.networkView))
      && (p.spec.networkView != "" ==> q.spec == p.spec)
      && forall f | f in q.finalizers :: f in p.finalizers || f == "ipam.cluster.x-k8s.io/ProtectPool"
  {
    WithoutSpec(s.pool.value.finalizers, PROTECT_POOL);
  }

  // ---------- whole runs ----------

  /** Others create and remove claims, delete the pool, and edit the finalizers that are theirs. */
  datatype Action =
    | Reconciles(answers: Answers)
    | CreatesClaim(claim: Claim)
    | RemovesClaim(index: nat)
    | DeletesPool
    | EditsFinalizers(finalizers: seq<string>)

  ghost predicate Step(s: State, act: Action, t: State) {
    match act
    case Reconciles(a) => exists failed :: ReconcileStep(s, a, t, failed)
    case CreatesClaim(c) => t == s.(claims := s.claims + [c])
    case RemovesClaim(i) =>
      t == if i < |s.claims| then s.(claims := s.claims[..i] + s.claims[i + 1..]) else s
    case DeletesPool =>
      t == if s.pool.Some? then s.(pool := Stored(s.pool.value.(deleting := true))) else s
    case EditsFinalizers(fs) =>
      t == if s.pool.Some? && (PROTECT_POOL in fs <==> PROTECT_POOL in s.pool.value.finalizers)
           then s.(pool := Stored(s.pool.value.(finalizers := fs))) else s
  }

  /** The step takes the protection away: a reconcile of a deleted pool that no claim names. */
  ghost predicate LetsGo(s: State, act: Action, t: State) {
    && Protected(s) && !Protected(t)
    && act.Reconciles? && !act.answers.listFails && !act.answers.patchFails
    && s.pool.value.deleting && !Named(s) && !InUse(s)
  }

  lemma {:induction false} ProtectionEndsOnlySafely(s: State, act: Action, t: State)
    requires Step(s, act, t) && Protected(s) && !Protected(t)
    ensures LetsGo(s, act, t)
    ensures act.Reconciles? && s.pool.value.deleting
    ensures var p := s.pool.value;
      forall c | c in s.claims && c.namespace == p.namespace && IsIpam(c) ::
        c.poolRef.kind != p.kind || c.poolRef.name != p.name
  {
    NamedMeansListed(s);
  }

  ghost predicate IsRun(states: seq<State>, acts: seq<Action>) {
    |states| == |acts| + 1 && forall i | 0 <= i < |acts| :: Step(states[i], acts[i], states[i + 1])
  }

  /**
    Over any run: a pool that was protected once and is no longer, or is gone, was let go by a
    reconcile that found it deleted and without a claim referring to it.
   */
  lemma {:induction false} PoolDeletionIsSafe(states: seq<State>, acts: seq<Action>, i: nat, j: nat)
    requires IsRun(states, acts) && i <= j < |states| && Protected(states[i]) && !Protected(states[j])
    ensures exists k | i <= k < j :: LetsGo(states[k], acts[k], states[k + 1])
    decreases j
  {
    assert Step(states[j - 1], acts[j - 1], states[j]);
    if Protected(states[j - 1]) {
      ProtectionEndsOnlySafely(states[j - 1], acts[j - 1], states[j]);
    } else {
      PoolDeletionIsSafe(states, acts, i, j - 1);
    }
  }

  /**
    Once a reconcile whose calls succeed has met the pool alive, the pool stays protected until
    a reconcile lets it go: nobody gets rid of it while a claim refers to it.
   */
  lemma {:induction false} MetAliveMeansSafe(states: seq<State>, acts: seq<Action>, i: nat, j: nat)
    requires IsRun(states, acts) && i < j < |states| && acts[i].Reconciles?
    requires !acts[i].answers.getFails && !acts[i].answers.patchFails
    requires states[i].pool.Some? && !states[i].pool.value.deleting
    ensures Protected(states[j]) || exists k | i < k < j :: LetsGo(states[k], acts[k], states[k + 1])
  {
    assert Step(states[i], acts[i], states[i + 1]);
    var failed :| ReconcileStep(states[i], acts[i].answers, states[i + 1], failed);
    LivePoolIsProtected(states[i], acts[i].answers, states[i + 1], failed);
    if !Protected(states[j]) {
      PoolDeletionIsSafe(states, acts, i + 1, j);
    }
  }

  /**
    When does it let go? With unambiguous kinds, a reconcile whose calls succeed keeps a deleted
    pool exactly while a claim names it. That is exactly while a claim refers to it unless the
    only claims that name it mean a pool of another group: those keep an unused pool alive.
   */
  lemma {:induction false} LetsGoIffUnused(s: State, a: Answers, t: State, failed: bool, kinds: set<string>)
    requires ReconcileStep(s, a, t, failed) && Protected(s) && s.pool.value.deleting
    requires !a.getFails && !a.listFails && !a.patchFails
    requires Unambiguous(kinds) && Storable(s.claims, kinds)
    requires s.pool.value.kind in kinds && LegalName(s.pool.value.name)
    ensures Protected(t) <==> Named(s)
    ensures (Protected(t) <==> InUse(s)) <==>
      InUse(s) || SameGroup(s.claims, s.pool.value.namespace, s.pool.value.Ref())
  {
    var p := s.pool.value;
    WithoutSpec(p.finalizers, PROTECT_POOL);
    ListedMembers(s.claims, p.namespace, p.Ref());
    if Lookup(s.claims, p.namespace, p.Ref()) != [] {
      var c := Lookup(s.claims, p.namespace, p.Ref())[0];
      assert c in Lookup(s.claims, p.namespace, p.Ref());
      KeyDetermines(kinds, c.poolRef, p.Ref());
    }
    NamedMeansListed(s);
  }

  /** A pool that is let go is gone at once, unless a finalizer of somebody else holds it. */
  lemma {:induction false} LetGoIsGoneIff(s: State, a: Answers, t: State, failed: bool)
    requires ReconcileStep(s, a, t, failed) && Protected(s) && !Protected(t)
    ensures t.pool.None? <==> forall f | f in s.pool.value.finalizers :: f == "ipam.cluster.x-k8s.io/ProtectPool"
  {
    var left := Without(s.pool.value.finalizers, PROTECT_POOL);
    WithoutSpec(s.pool.value.finalizers, PROTECT_POOL);
    assert left != [] ==> left[0] in left;
  }

  /** A claim for a pool of another group keeps a deleted pool that no claim refers to. */
  lemma {:induction false} OtherGroupBlocks(p: Pool, group: string, a: Answers, t: State, failed: bool)
    requires p.deleting && PROTECT_POOL in p.finalizers && group != IPAM_GROUP
    requires var c := Claim(IPAM_GROUP + "/v1beta2", p.namespace, "c", PoolRef(group, p.kind, p.name));
      ReconcileStep(State(Some(p), [c]), a, t, failed)
    ensures var c := Claim(IPAM_GROUP + "/v1beta2", p.namespace, "c", PoolRef(group, p.kind, p.name));
      !InUse(State(Some(p), [c])) && Protected(t) && failed
  {
    OtherGroupIsListed(p.namespace, p.Ref(), group);
  }
}
