/**
  The Infoblox server behind the connector, reduced to the contract the provider relies on.

  Every call first lets other hosts act, then takes effect or not, and may report an error
  in either case, as the script of the environment says. The `key` argument names the host
  on whose behalf the call is made; it is no part of the request.
 */
module WapiServer {
  import opened Outcomes
  import opened Prefixes
  import opened HostRecords
  import opened OwnRecord
  import opened RecordStore

  datatype WapiError = NotFound | Failed

  /** The placeholders of an object can be answered with an address free in the view. */
  predicate CanResolve(store: Store, o: HostObject, view: string, pick: Address) {
    var l4, l6 := Items(o.v4), Items(o.v6);
    && Answers(l4, pick, view) && Answers(l6, pick, view)
    && !(Asks(l4) && Asks(l6))
    && (Asks(l4) || Asks(l6) ==> !Held(store, view, pick))
  }

  function StoredView(o: HostObject): string {
    if o.networkView == "" then DEFAULT_VIEW else o.networkView
  }

  predicate CanCreate(store: Store, o: HostObject, g: Grant) {
    g.ref != "" && g.ref !in store && CanResolve(store, o, StoredView(o), g.pick)
  }

  function Created(o: HostObject, g: Grant): Record {
    Record(o.name, StoredView(o), g.zone, o.enableDns, o.dnsView,
           Resolved(Items(o.v4), g.pick), Resolved(Items(o.v6), g.pick))
  }

  predicate CanUpdate(store: Store, o: HostObject, ref: Ref, g: Grant) {
    Updatable(o) && ref in store && CanResolve(store, o, store[ref].networkView, g.pick)
  }

  function Updated(rec: Record, o: HostObject, g: Grant): Record {
    rec.(name := o.name, enableDns := o.enableDns, dnsView := o.dnsView,
         v4 := Resolved(Items(o.v4), g.pick), v6 := Resolved(Items(o.v6), g.pick))
  }

  /** The step a write makes: its effect unless the server refuses or the call never arrives. */
  function WriteStep(env: Env, w: World, key: Key, can: bool, after: Store): World {
    Step(env, w, key, if can && FaultAt(env, w) != FailsBefore then after else Interfered(env, w, key))
  }

  /** How many records a lookup lists, and which one if there is just one. */
  lemma {:induction false} TheOneServed(m: Store)
    ensures TheOne(m).Absent? <==> |m.Keys| == 0
    ensures TheOne(m).Several? ==> |m.Keys| > 1
    ensures TheOne(m).Single? ==> m.Keys == {TheOne(m).ref} && m[TheOne(m).ref] == TheOne(m).rec
  {
    TheOneSpec(m);
    if TheOne(m).Several? {
      var r, q :| r in m && q in m && r != q;
      assert |m.Keys - {r, q}| == |m.Keys| - 2;
    }
  }

  class Wapi {
    const env: Env
    var world: World

    constructor (env: Env, store: Store)
      ensures this.env == env && world == World(store, 0, [])
    {
      this.env := env;
      world := World(store, 0, []);
    }

    /** All records with the name, and in the network view unless that is empty. */
    method GetHostRecords(key: Key) returns (reply: Result<seq<HostObject>, WapiError>)
      modifies this
      ensures world == Pass(env, old(world), key)
      ensures FaultAt(env, old(world)) != Fine ==> reply == Err(Failed)
      ensures FaultAt(env, old(world)) == Fine ==>
        match OwnOf(world.store, key)
        case Absent => reply == Err(NotFound)
        case Single(r, rec) => reply == Ok([Served(r, rec)])
        case Several => reply.Ok? && |reply.value| > 1
    {
      var fault := FaultAt(env, world);
      world := Pass(env, world, key);
      if fault != Fine {
        return Err(Failed);
      }
      hide Interfered, OwnMap, TheOne, Served;
      var records := ServeAll(OwnMap(world.store, key));
      reply := if records == [] then Err(NotFound) else Ok(records);
    }

    static method ServeAll(m: Store) returns (records: seq<HostObject>)
      ensures TheOne(m).Absent? <==> records == []
      ensures TheOne(m).Several? ==> |records| > 1
      ensures TheOne(m).Single? ==> records == [Served(TheOne(m).ref, TheOne(m).rec)]
    {
      TheOneServed(m);
      hide Served, TheOne;
      var todo := m.Keys;
      records := [];
      while todo != {}
        invariant todo <= m.Keys && |records| + |todo| == |m.Keys|
        invariant forall o | o in records :: exists r | r in m :: o == Served(r, m[r])
      {
        var r :| r in todo;
        records := records + [Served(r, m[r])];
        todo := todo - {r};
      }
      if TheOne(m).Single? {
        assert |records| == 1 && records[0] in records;
      }
    }

    method CreateObject(o: HostObject, key: Key) returns (reply: Result<Ref, WapiError>)
      modifies this
      ensures var w := old(world); var g := env.moves(w.clock).grant; var mid := Interfered(env, w, key);
        && world == WriteStep(env, w, key, CanCreate(mid, o, g), mid[g.ref := Created(o, g)])
        && reply == if CanCreate(mid, o, g) && FaultAt(env, w) == Fine then Ok(g.ref) else Err(Failed)
    {
      var mid, g := Interfered(env, world, key), env.moves(world.clock).grant;
      var can, fault := CanCreate(mid, o, g), FaultAt(env, world);
      world := WriteStep(env, world, key, can, mid[g.ref := Created(o, g)]);
      reply := if can && fault == Fine then Ok(g.ref) else Err(Failed);
    }

    method UpdateObject(o: HostObject, ref: Ref, key: Key) returns (reply: Result<Ref, WapiError>)
      modifies this
      ensures var w := old(world); var g := env.moves(w.clock).grant; var mid := Interfered(env, w, key);
        && world == WriteStep(env, w, key, CanUpdate(mid, o, ref, g),
             if ref in mid then mid[ref := Updated(mid[ref], o, g)] else mid)
        && reply == if CanUpdate(mid, o, ref, g) && FaultAt(env, w) == Fine then Ok(ref) else Err(Failed)
    {
      var mid, g := Interfered(env, world, key), env.moves(world.clock).grant;
      var can, fault := CanUpdate(mid, o, ref, g), FaultAt(env, world);
      world := WriteStep(env, world, key, can, if ref in mid then mid[ref := Updated(mid[ref], o, g)] else mid);
      reply := if can && fault == Fine then Ok(ref) else Err(Failed);
    }

    method DeleteObject(ref: Ref, key: Key) returns (reply: Result<Ref, WapiError>)
      modifies this
      ensures var w := old(world); var mid := Interfered(env, w, key);
        && world == WriteStep(env, w, key, ref in mid, mid - {ref})
        && reply == if ref in mid && FaultAt(env, w) == Fine then Ok(ref) else Err(Failed)
    {
      var mid, fault := Interfered(env, world, key), FaultAt(env, world);
      world := WriteStep(env, world, key, ref in mid, mid - {ref});
      reply := if ref in mid && fault == Fine then Ok(ref) else Err(Failed);
    }

    method GetByRef(ref: Ref, key: Key) returns (reply: Result<HostObject, WapiError>)
      modifies this
      ensures world == Pass(env, old(world), key)
      ensures reply == if FaultAt(env, old(world)) == Fine && ref in world.store
                       then Ok(Served(ref, world.store[ref])) else Err(Failed)
    {
      var fault := FaultAt(env, world);
      world := Pass(env, world, key);
      reply := if fault == Fine && ref in world.store
               then Ok(Served(ref, world.store[ref])) else Err(Failed);
    }
  }
}
