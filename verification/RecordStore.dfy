/**
  The Infoblox store, its invariants, and the atomic steps made on it.

  The environment is a script: for every connector call it says what other hosts do to
  the store just before the call, whether the call reports an error, and what the server
  hands out. Theorems quantify over every script.
 */
module RecordStore {
  import opened Outcomes
  import opened Prefixes
  import opened HostRecords
  import opened OwnRecord

  type Store = map<Ref, Record>

  /** The references under which the host's records stand. */
  function OwnRefs(store: Store, key: Key): set<Ref> {
    set r | r in store && Matches(store[r], key)
  }

  function OwnMap(store: Store, key: Key): Store {
    store - (store.Keys - OwnRefs(store, key))
  }

  function Others(store: Store, key: Key): Store {
    store - OwnRefs(store, key)
  }

  ghost function TheOne(m: Store): Own {
    if m == map[] then Absent
    else
      var r :| r in m;
      if m == map[r := m[r]] then Single(r, m[r]) else Several
  }

  ghost function OwnOf(store: Store, key: Key): Own {
    TheOne(OwnMap(store, key))
  }

  // ---------- invariants ----------

  /** Name and network view identify a record. */
  predicate KeysUnique(store: Store) {
    forall r, q | r in store && q in store && r != q ::
      (store[r].name, store[r].networkView) != (store[q].name, store[q].networkView)
  }

  /** No address of a network view is held by two records. */
  predicate Exclusive(store: Store) {
    forall r, q | r in store && q in store && r != q && store[r].networkView == store[q].networkView ::
      store[r].Addresses() !! store[q].Addresses()
  }

  predicate RecordsSound(store: Store, pool: set<Subnet>) {
    forall r | r in store :: r != "" && SoundRecord(store[r], pool)
  }

  predicate Sound(store: Store, pool: set<Subnet>) {
    KeysUnique(store) && Exclusive(store) && RecordsSound(store, pool)
  }

  predicate Held(store: Store, view: string, a: Address) {
    exists r | r in store :: store[r].networkView == view && a in store[r].Addresses()
  }

  // ---------- the environment's script ----------

  /** What happens around one connector call. */
  datatype Move = Move(others: Option<Store>, fault: Fault, grant: Grant)

  /** `pool` collects every subnet that any pool of the provider uses. */
  datatype Env = Env(moves: nat -> Move, pool: set<Subnet>)

  /**
    Other hosts may do anything that leaves the own record alone and keeps a sound store
    sound. The server never gives a record an empty reference.
   */
  predicate Rely(before: Store, after: Store, key: Key, pool: set<Subnet>) {
    && OwnMap(after, key) == OwnMap(before, key)
    && (Sound(before, pool) ==> Sound(after, pool))
    && ("" !in before ==> "" !in after)
  }

  /** One atomic change, made on behalf of the host `key` or by others meanwhile. */
  datatype Event = Event(key: Key, byHost: bool, before: Store, after: Store)

  /** The store, the number of connector calls so far, and all changes so far. */
  datatype World = World(store: Store, clock: nat, log: seq<Event>)

  function FaultAt(env: Env, w: World): Fault {
    env.moves(w.clock).fault
  }

  /** The store as a call finds it, after the others' step. Steps against the rely do not happen. */
  function Interfered(env: Env, w: World, key: Key): Store {
    match env.moves(w.clock).others
    case None => w.store
    case Some(s) => if Rely(w.store, s, key, env.pool) then s else w.store
  }

  function Step(env: Env, w: World, key: Key, after: Store): World {
    var mid := Interfered(env, w, key);
    World(after, w.clock + 1, w.log + [Event(key, false, w.store, mid), Event(key, true, mid, after)])
  }

  /** A step that only reads. */
  function Pass(env: Env, w: World, key: Key): World {
    Step(env, w, key, Interfered(env, w, key))
  }

  /** An event that touches nothing it should not, and keeps the invariants. */
  ghost predicate Lawful(e: Event, pool: set<Subnet>) {
    && (e.byHost ==> Others(e.after, e.key) == Others(e.before, e.key))
    && (!e.byHost ==> OwnMap(e.after, e.key) == OwnMap(e.before, e.key))
    && (Sound(e.before, pool) ==> Sound(e.after, pool))
    && ("" !in e.before ==> "" !in e.after)
  }

  /** What one host's call does to the store is something another host may meet at any time. */
  lemma {:induction false} LawfulStepIsAdmissible(e: Event, l: Key, pool: set<Subnet>)
    requires Lawful(e, pool) && e.byHost && e.key.name != l.name
    ensures Rely(e.before, e.after, l, pool)
  {
    OthersKeptMeansOwnKept(e.before, e.after, e.key, l);
  }

  /** A host of another name finds its records among the others, so keeping those keeps them. */
  lemma {:induction false} OthersKeptMeansOwnKept(before: Store, after: Store, k: Key, l: Key)
    requires k.name != l.name && Others(after, k) == Others(before, k)
    ensures OwnMap(after, l) == OwnMap(before, l)
  {
    forall r
      ensures r in OwnMap(after, l) <==> r in OwnMap(before, l)
      ensures r in OwnMap(after, l) ==> after[r] == before[r]
    {
      assert r in OwnMap(after, l) ==> r in Others(after, k);
      assert r in OwnMap(before, l) ==> r in Others(before, k);
      assert r in Others(after, k) ==> Others(after, k)[r] == after[r];
      assert r in Others(before, k) ==> Others(before, k)[r] == before[r];
    }
  }

  /** `w` continues `v` by lawful events, each starting where the one before ended. */
  ghost predicate Continues(v: World, w: World, pool: set<Subnet>) {
    && v.clock <= w.clock
    && |v.log| <= |w.log| && w.log[..|v.log|] == v.log
    && (forall i | |v.log| <= i < |w.log| :: Lawful(w.log[i], pool))
    && (forall i | |v.log| < i < |w.log| :: w.log[i].before == w.log[i - 1].after)
    && (if |v.log| == |w.log| then v.store == w.store
        else w.log[|v.log|].before == v.store && w.log[|w.log| - 1].after == w.store)
  }

  lemma {:induction false} ContinuesSelf(w: World, pool: set<Subnet>)
    ensures Continues(w, w, pool)
  {
  }

  lemma {:induction false} ContinuesTrans(u: World, v: World, w: World, pool: set<Subnet>)
    requires Continues(u, v, pool) && Continues(v, w, pool)
    ensures Continues(u, w, pool)
  {
    hide Lawful;
    assert forall i | 0 <= i < |v.log| :: w.log[i] == v.log[i] by {
      assert forall i | 0 <= i < |v.log| :: w.log[..|v.log|][i] == w.log[i];
    }
    assert w.log[..|u.log|] == v.log[..|u.log|];
  }

  lemma {:induction false} StepContinues(env: Env, w: World, key: Key, after: Store)
    requires var mid := Interfered(env, w, key);
      && Others(after, key) == Others(mid, key) && (Sound(mid, env.pool) ==> Sound(after, env.pool))
      && ("" !in mid ==> "" !in after)
    ensures Continues(w, Step(env, w, key, after), env.pool)
  {
    var x := Step(env, w, key, after);
    assert x.log[..|w.log|] == w.log;
  }

  /** Every state a lawful history passes through is sound. */
  lemma {:induction false} SoundThroughout(v: World, w: World, pool: set<Subnet>, i: nat)
    requires Continues(v, w, pool) && Sound(v.store, pool) && |v.log| <= i < |w.log|
    ensures Sound(w.log[i].before, pool) && Sound(w.log[i].after, pool)
  {
    if i > |v.log| {
      SoundThroughout(v, w, pool, i - 1);
    }
  }

  lemma {:induction false} RefsThroughout(v: World, w: World, pool: set<Subnet>, i: nat)
    requires Continues(v, w, pool) && "" !in v.store && |v.log| <= i < |w.log|
    ensures "" !in w.log[i].before && "" !in w.log[i].after
  {
    if i > |v.log| {
      RefsThroughout(v, w, pool, i - 1);
    }
  }

  lemma {:induction false} ContinuesSound(v: World, w: World, pool: set<Subnet>)
    requires Continues(v, w, pool) && Sound(v.store, pool)
    ensures Sound(w.store, pool)
  {
    if |v.log| < |w.log| {
      SoundThroughout(v, w, pool, |w.log| - 1);
    }
  }

  // ---------- the own record within the store ----------

  lemma {:induction false} TheOneSpec(m: Store)
    ensures TheOne(m).Absent? <==> m == map[]
    ensures forall r, rec :: TheOne(m) == Single(r, rec) <==> m == map[r := rec]
    ensures TheOne(m).Several? <==> exists r, q :: r in m && q in m && r != q
  {
    forall r, rec | m == map[r := rec]
      ensures TheOne(m) == Single(r, rec)
    {
      assert r in m && m[r] == rec;
      assert forall q | q in m :: q == r && m == map[q := m[q]];
    }
    if !TheOne(m).Absent? {
      var r :| r in m;
      if forall q | q in m :: q == r {
        assert m == map[r := m[r]];
      } else {
        var q :| q in m && q != r;
        forall p, rec ensures m != map[p := rec] {
          assert r != p || q != p;
        }
      }
    }
  }

  lemma {:induction false} OwnInStore(store: Store, key: Key)
    ensures match OwnOf(store, key)
      case Absent => forall r | r in store :: !Matches(store[r], key)
      case Single(r, rec) => r in store && store[r] == rec && Matches(rec, key)
        && forall q | q in store && Matches(store[q], key) :: q == r
      case Several =>
        exists r, q :: r in store && q in store && r != q && Matches(store[r], key) && Matches(store[q], key)
  {
    var m := OwnMap(store, key);
    TheOneSpec(m);
    match OwnOf(store, key)
    case Absent => assert forall r | r in store && Matches(store[r], key) :: r in m;
    case Single(r, rec) =>
      assert m == map[r := rec];
      assert r in m;
      assert forall q | q in store && Matches(store[q], key) :: q in m;
    case Several =>
      var r, q :| r in m && q in m && r != q;
  }

  /**
    A host's records are those of its name, in its network view or in any view if none is given;
    two of them make the lookup ambiguous.
   */
  lemma {:induction false} LookupFinds(store: Store, key: Key)
    ensures OwnOf(store, key).Absent? <==>
      forall r | r in store && store[r].name == key.name :: key.view != "" && store[r].networkView != key.view
    ensures OwnOf(store, key).Several? <==> exists r, q ::
      && r in store && q in store && r != q && store[r].name == store[q].name == key.name
      && (key.view == "" || store[r].networkView == store[q].networkView == key.view)
    ensures var own := OwnOf(store, key);
      own.Single? ==> own.ref in store && own.rec == store[own.ref]
  {
    OwnInStore(store, key);
  }

  /** With a network view given, a store with unique keys is never ambiguous. */
  lemma {:induction false} NeverAmbiguous(store: Store, key: Key)
    requires KeysUnique(store) && key.view != ""
    ensures !OwnOf(store, key).Several?
  {
    OwnInStore(store, key);
  }

  /** Replacing the own record by another one of the same host, or by none. */
  function Install(store: Store, own: Own, next: Own): Store {
    if next.Single? then store[next.ref := next.rec]
    else if next.Absent? && own.Single? then store - {own.ref}
    else store
  }

  /** The new record belongs to the host and takes the old one's place or a free reference. */
  predicate Fits(store: Store, key: Key, own: Own, next: Own) {
    && !own.Several? && !next.Several?
    && (next.Single? ==> Matches(next.rec, key))
    && (next.Single? && own.Single? ==> next.ref == own.ref)
    && (next.Single? && own.Absent? ==> next.ref !in store)
  }

  lemma {:induction false} InstallOwn(store: Store, key: Key, own: Own, next: Own)
    requires own == OwnOf(store, key) && Fits(store, key, own, next)
    ensures var after := Install(store, own, next);
      OwnOf(after, key) == next && Others(after, key) == Others(store, key)
  {
    var after := Install(store, own, next);
    OwnInStore(store, key);
    TheOneSpec(OwnMap(after, key));
    if next.Single? {
      assert OwnMap(after, key) == map[next.ref := next.rec];
    } else {
      assert OwnMap(after, key) == map[];
    }
    assert Others(after, key) == Others(store, key);
  }

  /** A sound new record of the host that takes only addresses free in its view. */
  lemma {:induction false} InstallSound(store: Store, key: Key, own: Own, next: Own, pool: set<Subnet>)
    requires own == OwnOf(store, key) && Fits(store, key, own, next) && Sound(store, pool)
    requires next.Single? ==> next.ref != "" && SoundRecord(next.rec, pool)
    requires next.Single? && own.Single? ==>
      (next.rec.name, next.rec.networkView) == (own.rec.name, own.rec.networkView)
    requires next.Single? && own.Absent? ==> next.rec.networkView == ViewOf(key)
    requires next.Single? ==> forall a | a in next.rec.Addresses() ::
      (own.Single? && a in own.rec.Addresses()) || !Held(store, next.rec.networkView, a)
    ensures Sound(Install(store, own, next), pool)
  {
    var after := Install(store, own, next);
    OwnInStore(store, key);
    if next.Single? {
      var n := next.ref;
      forall r | r in after && r != n
        ensures (after[r].name, after[r].networkView) != (after[n].name, after[n].networkView)
        ensures after[r].networkView == after[n].networkView ==> after[r].Addresses() !! after[n].Addresses()
      {
        assert after[r] == store[r];
        if after[r].networkView == after[n].networkView {
          forall a | a in after[r].Addresses()
            ensures a !in after[n].Addresses()
          {
            assert Held(store, after[n].networkView, a);
          }
        }
      }
    }
  }
}
