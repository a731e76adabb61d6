/**
  The provider's client: it edits a fetched record object in place and writes it back.

  Each operation is proved to do exactly what `AddressProtocol` says, and the results about
  runs, interference and round trips are proved there.
 */
module InfobloxClient {
  import opened Outcomes
  import opened Prefixes
  import opened AddressLists
  import opened HostRecords
  import opened OwnRecord
  import opened RecordStore
  import opened AddressProtocol
  import opened WapiServer

  /** The object for a host that has no record yet. */
  function NewObject(key: Key, dnsView: string, dnsZone: string): HostObject {
    var dns := dnsZone != "";
    HostObject("", key.name, key.view, "", dns,
               if dns && dnsView != "" then Some(dnsView) else None, None, None)
  }

  // ---------- what the server makes of the client's objects ----------

  lemma {:induction false} OnePlaceholder(l: seq<HostAddr>, s: Subnet, asked: string, view: string, pick: Address)
    requires forall h | h in l :: h.text.Stored?
    ensures var m := l + [HostAddr(NextAvailable(s, asked), "")];
      !Asks(l) && Answers(l, pick, view) && Asks(m)
      && (Answers(m, pick, view) <==> Contains(s, pick) && asked in {"", view})
      && Resolved(l, pick) == Slots(l) && Resolved(m, pick) == Slots(l) + [Ip(pick)]
  {
    var m := l + [HostAddr(NextAvailable(s, asked), "")];
    assert m[|l|].text.NextAvailable?;
    assert forall i | 0 <= i < |l| :: m[i] == l[i] && l[i] in l;
  }

  /** Clearing the hosts changes nothing the server resolves. */
  lemma {:induction false} ClearedResolves(l: Option<seq<HostAddr>>, view: string, pick: Address)
    ensures Asks(Cleared(l)) <==> Asks(Items(l))
    ensures Answers(Cleared(l), pick, view) <==> Answers(Items(l), pick, view)
    ensures Resolved(Cleared(l), pick) == Resolved(Items(l), pick)
    ensures HostsClear(Cleared(l))
  {
    var c, k := Cleared(l), Items(l);
    assert forall i | 0 <= i < |k| :: c[i].text == k[i].text;
    if Asks(k) {
      var i :| 0 <= i < |k| && k[i].text.NextAvailable?;
      assert c[i].text.NextAvailable?;
    }
  }

  lemma {:induction false} CreateGrows(store: Store, req: Request, g: Grant)
    ensures var o := Requesting(NewObject(req.key, req.dnsView, req.dnsZone), req.subnet, req.key.view);
      o.ref == "" && (CanCreate(store, o, g) <==> Acceptable(store, Absent, req, g))
      && Grow(Absent, req, g) == Single(g.ref, Created(o, g))
  {
    OnePlaceholder([], req.subnet, req.key.view, ViewOf(req.key), g.pick);
    hide Held, Contains, Answers, Asks;
    assert Slots([]) == [];
    var entry := HostAddr(NextAvailable(req.subnet, req.key.view), "");
    assert [] + [entry] == [entry];
  }

  lemma {:induction false} UpdateGrows(store: Store, req: Request, g: Grant, r: Ref, rec: Record)
    requires r in store && store[r] == rec && Matches(rec, req.key)
    ensures var o := Prepared(Requesting(Served(r, rec), req.subnet, req.key.view));
      (CanUpdate(store, o, r, g) <==> Acceptable(store, Single(r, rec), req, g))
      && Grow(Single(r, rec), req, g) == Single(r, Updated(rec, o, g))
  {
    var f, view := req.subnet.family, rec.networkView;
    var served := Served(r, rec);
    var o := Requesting(served, req.subnet, req.key.view);
    ServedSlots(r, rec, V4);
    ServedSlots(r, rec, V6);
    OnePlaceholder(served.List(V4), req.subnet, req.key.view, view, g.pick);
    OnePlaceholder(served.List(V6), req.subnet, req.key.view, view, g.pick);
    ClearedResolves(o.v4, view, g.pick);
    ClearedResolves(o.v6, view, g.pick);
  }

  /** Entries that were fetched, cleared and sent back resolve to the slots they came from. */
  lemma {:induction false} ResentVerbatim(l: Option<seq<HostAddr>>, view: string, pick: Address)
    requires forall h | h in Items(l) :: h.text.Stored?
    ensures !Asks(Cleared(l)) && Answers(Cleared(l), pick, view)
    ensures Resolved(Cleared(l), pick) == Slots(Items(l)) && HostsClear(Cleared(l))
  {
    assert forall i | 0 <= i < |Items(l)| :: Items(l)[i] in Items(l);
    assert Resolved(Items(l), pick) == Slots(Items(l));
    ClearedResolves(l, view, pick);
  }

  /** The fetched object without its first address in the subnet makes the server strip it. */
  lemma {:induction false} UpdateStrips(store: Store, s: Subnet, g: Grant, r: Ref, rec: Record, l: seq<HostAddr>)
    requires r in store && store[r] == rec && IsSplice(Served(r, rec).List(s.family), l, s)
    ensures var o := Replaced(Served(r, rec), s.family, l);
      CanUpdate(store, Prepared(o), r, g)
      && Updated(rec, Prepared(o), g) == Stripped(rec, s)
      && (o.List(V4) == [] && o.List(V6) == [] <==> Stripped(rec, s).Empty())
  {
    var served := Served(r, rec);
    var o := Replaced(served, s.family, l);
    SpliceRemovesFirst(served.List(s.family), l, s);
    ServedSlots(r, rec, V4);
    ServedSlots(r, rec, V6);
    ResentVerbatim(o.v4, rec.networkView, g.pick);
    ResentVerbatim(o.v6, rec.networkView, g.pick);
    assert |Slots(o.List(V4))| == |o.List(V4)| && |Slots(o.List(V6))| == |o.List(V6)|;
  }

  function Stripped(rec: Record, s: Subnet): Record {
    rec.With(s.family, RemoveFirstIn(rec.List(s.family), s))
  }

  // ---------- one write ----------

  predicate CanWrite(store: Store, o: HostObject, g: Grant) {
    if o.ref == "" then CanCreate(store, o, g) else CanUpdate(store, Prepared(o), o.ref, g)
  }

  function RefOf(o: HostObject, g: Grant): Ref {
    if o.ref == "" then g.ref else o.ref
  }

  function Written(store: Store, o: HostObject, g: Grant): Store {
    if o.ref == "" then store[g.ref := Created(o, g)]
    else if o.ref in store then store[o.ref := Updated(store[o.ref], Prepared(o), g)]
    else store
  }

  ghost function BaseObject(own: Own, req: Request): HostObject {
    if own.Single? then Served(own.ref, own.rec) else NewObject(req.key, req.dnsView, req.dnsZone)
  }

  /** Sending the object with the placeholder is the writing step of an allocation. */
  lemma {:induction false} AskingWrites(env: Env, w: World, req: Request, own: Own)
    requires own == OwnOf(w.store, req.key) && !own.Several? && (own.Single? ==> own.ref != "")
    requires OwnFirst(own, req.subnet).None?
    ensures var o := Requesting(BaseObject(own, req), req.subnet, req.key.view);
      var mid, g := Interfered(env, w, req.key), env.moves(w.clock).grant;
      var w2 := AskForAddress(env, w, req, own);
      && (CanWrite(mid, o, g) <==> Acceptable(mid, own, req, g))
      && w2 == WriteStep(env, w, req.key, CanWrite(mid, o, g), Written(mid, o, g))
      && (CanWrite(mid, o, g) && FaultAt(env, w) == Fine ==>
            OwnOf(w2.store, req.key) == Grow(own, req, g) && Grow(own, req, g).ref == RefOf(o, g))
  {
    var mid, g := Interfered(env, w, req.key), env.moves(w.clock).grant;
    assert OwnOf(mid, req.key) == own;
    OwnInStore(mid, req.key);
    if own.Absent? {
      CreateGrows(mid, req, g);
    } else {
      UpdateGrows(mid, req, g, own.ref, own.rec);
    }
    if Acceptable(mid, own, req, g) {
      GrowFits(mid, req, own, g, env.pool);
      InstallOwn(mid, req.key, own, Grow(own, req, g));
    }
  }

  /** The object fetched after the write shows the granted address first in its subnet. */
  lemma {:induction false} FetchShowsGrant(store: Store, req: Request, own: Own, g: Grant)
    requires !own.Several? && OwnFirst(own, req.subnet).None? && Contains(req.subnet, g.pick)
    requires OwnOf(store, req.key) == Grow(own, req, g)
    ensures var r := Grow(own, req, g).ref;
      r in store && FirstIn(Slots(Served(r, store[r]).List(req.subnet.family)), req.subnet) == Some(g.pick)
  {
    OwnInStore(store, req.key);
    var r, f := Grow(own, req, g).ref, req.subnet.family;
    var l := if own.Single? then own.rec.List(f) else [];
    FirstInSpec(l, req.subnet);
    FirstInAppended(l, g.pick, req.subnet);
    ServedSlots(r, store[r], f);
  }

  /** Deleting the spliced object, or sending it, is the writing step of a release. */
  lemma {:induction false} GivingBackWrites(env: Env, w: World, key: Key, s: Subnet, own: Own, l: seq<HostAddr>)
    requires own == OwnOf(w.store, key) && own.Single? && OwnFirst(own, s).Some?
    requires IsSplice(Served(own.ref, own.rec).List(s.family), l, s)
    ensures var o := Replaced(Served(own.ref, own.rec), s.family, l);
      var mid, g := Interfered(env, w, key), env.moves(w.clock).grant;
      && own.ref in mid && CanUpdate(mid, Prepared(o), own.ref, g)
      && GiveBack(env, w, key, s, own) == WriteStep(env, w, key, true,
           if Items(o.v4) == [] && Items(o.v6) == [] then mid - {own.ref}
           else mid[own.ref := Updated(mid[own.ref], Prepared(o), g)])
  {
    var mid, g := Interfered(env, w, key), env.moves(w.clock).grant;
    assert OwnOf(mid, key) == own;
    OwnInStore(mid, key);
    UpdateStrips(mid, s, g, own.ref, own.rec, l);
    assert Strip(own, s) == if Stripped(own.rec, s).Empty() then Absent else Single(own.ref, Stripped(own.rec, s));
  }

  // ---------- the client ----------

  class Client {
    const wapi: Wapi

    constructor (wapi: Wapi)
      ensures this.wapi == wapi
    {
      this.wapi := wapi;
    }

    method GetOrNewHostRecord(key: Key, dnsView: string, dnsZone: string)
      returns (r: Result<HostRecord, Error>)
      modifies wapi
      ensures wapi.world == Pass(wapi.env, old(wapi.world), key)
      ensures FaultAt(wapi.env, old(wapi.world)) != Fine ==> r == Err(Connector)
      ensures FaultAt(wapi.env, old(wapi.world)) == Fine ==>
        match OwnOf(wapi.world.store, key)
        case Absent => r.Ok? && fresh(r.value) && r.value.Value() == NewObject(key, dnsView, dnsZone)
        case Single(ref, rec) => r.Ok? && fresh(r.value) && r.value.Value() == Served(ref, rec)
        case Several => r == Err(MultipleRecords)
      ensures FaultAt(wapi.env, old(wapi.world)) == Fine && OwnOf(wapi.world.store, key).Absent? && r.Ok? ==>
        var hr := r.value;
        && hr.ref == "" && hr.name == key.name && hr.networkView == key.view && hr.zone == ""
        && (hr.enableDns <==> dnsZone != "")
        && hr.dnsView == (if dnsZone != "" && dnsView != "" then Some(dnsView) else None)
        && hr.ipv4Addrs.None? && hr.ipv6Addrs.None?
    {
      var reply := wapi.GetHostRecords(key);
      if reply.Err? {
        if reply.error != NotFound {
          return Err(Connector);
        }
        var hr := new HostRecord(NewObject(key, dnsView, dnsZone));
        return Ok(hr);
      }
      if |reply.value| == 1 {
        var hr := new HostRecord(reply.value[0]);
        return Ok(hr);
      }
      return Err(MultipleRecords);
    }

    /** Writes the object and fetches what the server made of it. */
    method CreateOrUpdateHostRecord(hr: HostRecord, key: Key) returns (err: Option<Error>)
      modifies wapi, hr
      ensures var env, w, o := wapi.env, old(wapi.world), old(hr.Value());
        var mid, g := Interfered(env, w, key), env.moves(w.clock).grant;
        var w1 := WriteStep(env, w, key, CanWrite(mid, o, g), Written(mid, o, g));
        if !CanWrite(mid, o, g) || FaultAt(env, w) != Fine then wapi.world == w1 && err == Some(Connector)
        else
          wapi.world == Pass(env, w1, key) &&
          if FaultAt(env, w1) == Fine && RefOf(o, g) in wapi.world.store
          then err.None? && hr.Value() == Served(RefOf(o, g), wapi.world.store[RefOf(o, g)])
          else err == Some(Connector)
    {
      var ref: Result<Ref, WapiError>;
      if hr.ref == "" {
        ref := wapi.CreateObject(hr.Value(), key);
      } else {
        hr.PrepareForUpdate();
        ref := wapi.UpdateObject(hr.Value(), hr.ref, key);
      }
      if ref.Err? {
        return Some(Connector);
      }
      var fetched := wapi.GetByRef(ref.value, key);
      if fetched.Err? {
        return Some(Connector);
      }
      hr.Overwrite(fetched.value);
      return None;
    }

    /** The address of the host in the subnet, allocated if there is none yet. */
    method GetOrAllocateAddress(req: Request) returns (r: Result<Address, Error>)
      requires "" !in wapi.world.store
      modifies wapi
      ensures Outcome(wapi.world, r) == Allocate(wapi.env, old(wapi.world), req)
      ensures "" !in wapi.world.store
    {
      AllocateKeepsRefs(wapi.env, wapi.world, req);
      var key, subnet := req.key, req.subnet;
      ghost var env, own := wapi.env, OwnOf(wapi.world.store, key);
      OwnInStore(wapi.world.store, key);
      var found := GetOrNewHostRecord(key, req.dnsView, req.dnsZone);
      if found.Err? {
        return Err(found.error);
      }
      var hr := found.value;
      assert hr.Value() == BaseObject(own, req);
      if own.Single? {
        ServedSlots(own.ref, own.rec, subnet.family);
      }
      var addr := hr.AllocatedAddrInSubnet(subnet);
      if addr.Some? {
        return Ok(addr.value);
      }
      ghost var w1 := wapi.world;
      hr.AppendNextAvailable(subnet, key.view);
      AskingWrites(env, w1, req, own);
      var err := CreateOrUpdateHostRecord(hr, key);
      ghost var w2 := AskForAddress(env, w1, req, own);
      ghost var g := env.moves(w1.clock).grant;
      if Acceptable(Interfered(env, w1, key), own, req, g) && FaultAt(env, w1) == Fine {
        assert OwnOf(wapi.world.store, key) == OwnOf(w2.store, key);
        FetchShowsGrant(wapi.world.store, req, own, g);
      }
      if err.Some? {
        return Err(err.value);
      }
      addr := hr.AllocatedAddrInSubnet(subnet);
      if addr.None? {
        return Err(NoMatchingAddress);
      }
      return Ok(addr.value);
    }

    /** Gives the first address of the host in the subnet back, and the record with the last one. */
    method ReleaseAddress(key: Key, dnsView: string, subnet: Subnet) returns (r: Result<(), Error>)
      modifies wapi
      ensures Outcome(wapi.world, r) == Release(wapi.env, old(wapi.world), key, subnet)
    {
      hide NewObject;
      ghost var env, own := wapi.env, OwnOf(wapi.world.store, key);
      var found := GetOrNewHostRecord(key, dnsView, "");
      if found.Err? {
        return Err(found.error);
      }
      var hr := found.value;
      if own.Single? {
        ServedSlots(own.ref, own.rec, subnet.family);
        FirstInSpec(own.rec.List(subnet.family), subnet);
      }
      var removed := hr.RemoveFirst(subnet);
      if !removed {
        return Ok(());
      }
      ghost var w1 := wapi.world;
      assert own.Single? && OwnOf(w1.store, key) == own && OwnFirst(own, subnet).Some?;
      GivingBackWrites(env, w1, key, subnet, own, hr.Value().List(subnet.family));
      if |Items(hr.ipv4Addrs)| == 0 && |Items(hr.ipv6Addrs)| == 0 {
        var deleted := wapi.DeleteObject(hr.ref, key);
        if deleted.Err? {
          return Err(Connector);
        }
        return Ok(());
      }
      hr.PrepareForUpdate();
      var updated := wapi.UpdateObject(hr.Value(), hr.ref, key);
      if updated.Err? {
        return Err(Connector);
      }
      return Ok(());
    }
  }
}
