/**
  Host records: as the server stores them, as they travel, and as the client edits them.
 */
module HostRecords {
  import opened Outcomes
  import opened Prefixes
  import opened AddressLists

  type Ref = string

  /** A stored record. Its network view and its name identify it to the provider. */
  datatype Record = Record(
    name: string, networkView: string, zone: string,
    enableDns: bool, dnsView: Option<string>,
    v4: seq<Slot>, v6: seq<Slot>)
  {
    function List(f: Family): seq<Slot> {
      if f.V4? then v4 else v6
    }

    function With(f: Family, l: seq<Slot>): Record {
      if f.V4? then this.(v4 := l) else this.(v6 := l)
    }

    predicate Empty() { v4 == [] && v6 == [] }

    function Addresses(): set<Address> {
      (set x | x in v4 && x.Ip? :: x.ip) + (set x | x in v6 && x.Ip? :: x.ip)
    }

    /** Each list holds addresses of its own family. */
    predicate FamilyConsistent() {
      && (forall x | x in v4 :: x.Ip? ==> x.ip.family.V4?)
      && (forall x | x in v6 :: x.Ip? ==> x.ip.family.V6?)
    }
  }

  /** The text of one entry: an address of a fetched record, or the server function call. */
  datatype Text = Stored(slot: Slot) | NextAvailable(subnet: Subnet, view: string)

  datatype HostAddr = HostAddr(text: Text, host: string)

  /** A host record object on the wire. An absent list is `None`. */
  datatype HostObject = HostObject(
    ref: Ref, name: string, networkView: string, zone: string,
    enableDns: bool, dnsView: Option<string>,
    v4: Option<seq<HostAddr>>, v6: Option<seq<HostAddr>>)
  {
    function List(f: Family): seq<HostAddr> {
      Items(if f.V4? then v4 else v6)
    }
  }

  function Items<T>(l: Option<seq<T>>): seq<T> {
    if l.Some? then l.value else []
  }

  /** What `netip.ParseAddr` makes of an entry: a placeholder is no address. */
  function SlotOf(h: HostAddr): Slot {
    if h.text.Stored? then h.text.slot else Malformed("func:nextavailableip")
  }

  function Slots(l: seq<HostAddr>): seq<Slot> {
    seq(|l|, i requires 0 <= i < |l| => SlotOf(l[i]))
  }

  // ---------- what the server sends ----------

  function ServedList(l: seq<Slot>, host: string): Option<seq<HostAddr>> {
    if l == [] then None
    else Some(seq(|l|, i requires 0 <= i < |l| => HostAddr(Stored(l[i]), host)))
  }

  function Served(ref: Ref, rec: Record): HostObject {
    HostObject(ref, rec.name, rec.networkView, rec.zone, rec.enableDns, rec.dnsView,
               ServedList(rec.v4, rec.name), ServedList(rec.v6, rec.name))
  }

  lemma {:induction false} ServedSlots(ref: Ref, rec: Record, f: Family)
    ensures Slots(Served(ref, rec).List(f)) == rec.List(f)
    ensures forall h | h in Served(ref, rec).List(f) :: h.text.Stored?
  {
  }

  // ---------- what the server accepts ----------

  predicate Asks(l: seq<HostAddr>) {
    exists i | 0 <= i < |l| :: l[i].text.NextAvailable?
  }

  /** The one placeholder, if any, can be answered with `pick` in network view `view`. */
  predicate Answers(l: seq<HostAddr>, pick: Address, view: string) {
    && (forall i | 0 <= i < |l| && l[i].text.NextAvailable? ::
          Contains(l[i].text.subnet, pick) && l[i].text.view in {"", view})
    && (forall i, j | 0 <= i < j < |l| ::
          !(l[i].text.NextAvailable? && l[j].text.NextAvailable?))
  }

  function Resolved(l: seq<HostAddr>, pick: Address): seq<Slot> {
    seq(|l|, i requires 0 <= i < |l| =>
      if l[i].text.Stored? then l[i].text.slot else Ip(pick))
  }

  predicate HostsClear(l: seq<HostAddr>) {
    forall i | 0 <= i < |l| :: l[i].host == ""
  }

  /** An update may carry neither zone, network view nor hosts, and both lists must be there. */
  predicate Updatable(o: HostObject) {
    && o.zone == "" && o.networkView == ""
    && o.v4.Some? && o.v6.Some?
    && HostsClear(o.v4.value) && HostsClear(o.v6.value)
  }

  // ---------- preparing an update ----------

  function Cleared(l: Option<seq<HostAddr>>): seq<HostAddr> {
    seq(|Items(l)|, i requires 0 <= i < |Items(l)| => Items(l)[i].(host := ""))
  }

  function Prepared(o: HostObject): HostObject {
    o.(zone := "", networkView := "", v4 := Some(Cleared(o.v4)), v6 := Some(Cleared(o.v6)))
  }

  /** Preparing makes any object acceptable, keeps its identity and every entry's text. */
  lemma {:induction false} PreparedIsUpdatable(o: HostObject, f: Family, pick: Address)
    ensures Updatable(Prepared(o)) && Prepared(Prepared(o)) == Prepared(o)
    ensures Slots(Prepared(o).List(f)) == Slots(o.List(f))
    ensures Resolved(Prepared(o).List(f), pick) == Resolved(o.List(f), pick)
    ensures var p := Prepared(o);
      (p.ref, p.name, p.enableDns, p.dnsView) == (o.ref, o.name, o.enableDns, o.dnsView)
  {
    var p := Prepared(o);
    assert Cleared(p.v4) == Cleared(o.v4) && Cleared(p.v6) == Cleared(o.v6);
    assert Slots(p.List(f)) == Slots(o.List(f));
    assert Resolved(p.List(f), pick) == Resolved(o.List(f), pick);
  }

  /** On family-consistent records the scan of one list sees all that scanning both would. */
  lemma {:induction false} OneListIsEnough(rec: Record, s: Subnet)
    requires rec.FamilyConsistent()
    ensures FirstIn(rec.List(s.family), s) == FirstIn(rec.v4 + rec.v6, s)
    ensures FirstIn(rec.List(s.family), s) == FirstIn(rec.v6 + rec.v4, s)
    ensures FirstIn(rec.List(s.family), s).None? <==> forall a | a in rec.Addresses() :: !Contains(s, a)
  {
    FirstInSpec(rec.List(s.family), s);
    if s.family.V4? {
      assert NoneIn(rec.v6, s);
      FirstInConcat(rec.v4, rec.v6, s);
      FirstInConcat(rec.v6, rec.v4, s);
    } else {
      assert NoneIn(rec.v4, s);
      FirstInConcat(rec.v4, rec.v6, s);
      FirstInConcat(rec.v6, rec.v4, s);
    }
    forall a | a in rec.Addresses() && Contains(s, a)
      ensures !NoneIn(rec.List(s.family), s)
    {
      assert Ip(a) in rec.List(s.family);
    }
    if !NoneIn(rec.List(s.family), s) {
      var i :| 0 <= i < |rec.List(s.family)| && In(rec.List(s.family)[i], s);
      assert rec.List(s.family)[i].ip in rec.Addresses();
    }
  }

  lemma {:induction false} FirstInConcat(l: seq<Slot>, m: seq<Slot>, s: Subnet)
    ensures NoneIn(l, s) ==> FirstIn(l + m, s) == FirstIn(m, s)
    ensures NoneIn(m, s) ==> FirstIn(l + m, s) == FirstIn(l, s)
  {
    if l == [] {
      assert l + m == m;
      FirstInSpec(m, s);
    } else {
      FirstInConcat(l[1..], m, s);
      assert (l + m)[1..] == l[1..] + m;
    }
  }

  // ---------- the object the client edits in place ----------

  class HostRecord {
    var ref: Ref
    var name: string
    var networkView: string
    var zone: string
    var enableDns: bool
    var dnsView: Option<string>
    var ipv4Addrs: Option<seq<HostAddr>>
    var ipv6Addrs: Option<seq<HostAddr>>

    function Value(): HostObject
      reads this
    {
      HostObject(ref, name, networkView, zone, enableDns, dnsView, ipv4Addrs, ipv6Addrs)
    }

    constructor (o: HostObject)
      ensures Value() == o
    {
      ref, name, networkView, zone := o.ref, o.name, o.networkView, o.zone;
      enableDns, dnsView := o.enableDns, o.dnsView;
      ipv4Addrs, ipv6Addrs := o.v4, o.v6;
    }

    method Overwrite(o: HostObject)
      modifies this
      ensures Value() == o
    {
      ref, name, networkView, zone := o.ref, o.name, o.networkView, o.zone;
      enableDns, dnsView := o.enableDns, o.dnsView;
      ipv4Addrs, ipv6Addrs := o.v4, o.v6;
    }

    /** The first address of the record in the subnet, scanning the subnet's family only. */
    method AllocatedAddrInSubnet(subnet: Subnet) returns (addr: Option<Address>)
      ensures addr == FirstIn(Slots(Value().List(subnet.family)), subnet)
    {
      var addrs := Items(if subnet.family.V4? then ipv4Addrs else ipv6Addrs);
      ghost var slots := Slots(addrs);
      for i := 0 to |addrs|
        invariant forall j | 0 <= j < i :: !In(slots[j], subnet)
      {
        var slot := SlotOf(addrs[i]);
        assert slot == slots[i];
        if slot.Missing? || slot.Malformed? {
          continue;
        }
        if Contains(subnet, slot.ip) {
          FirstAtDecides(slots, i, subnet);
          return Some(slot.ip);
        }
      }
      FirstInSpec(slots, subnet);
      return None;
    }

    /** Asks the server for the next free address of the subnet. */
    method AppendNextAvailable(subnet: Subnet, view: string)
      modifies this
      ensures Value() == Requesting(old(Value()), subnet, view)
      ensures var entry := HostAddr(NextAvailable(subnet, view), "");
        if subnet.family.V4? then ipv4Addrs == Some(old(Items(ipv4Addrs)) + [entry]) && ipv6Addrs == old(ipv6Addrs)
        else ipv6Addrs == Some(old(Items(ipv6Addrs)) + [entry]) && ipv4Addrs == old(ipv4Addrs)
    {
      var entry := HostAddr(NextAvailable(subnet, view), "");
      if subnet.family.V4? {
        ipv4Addrs := Some(Items(ipv4Addrs) + [entry]);
      } else {
        ipv6Addrs := Some(Items(ipv6Addrs) + [entry]);
      }
    }

    /** Splices the first address in the subnet out of its list. */
    method RemoveFirst(subnet: Subnet) returns (removed: bool)
      modifies this
      ensures removed <==> !NoneIn(Slots(old(Value()).List(subnet.family)), subnet)
      ensures !removed ==> Value() == old(Value())
      ensures removed ==> Value() == Replaced(old(Value()), subnet.family, Value().List(subnet.family))
      ensures removed ==> IsSplice(old(Value()).List(subnet.family), Value().List(subnet.family), subnet)
    {
      var addrs := Items(if subnet.family.V4? then ipv4Addrs else ipv6Addrs);
      ghost var slots := Slots(addrs);
      removed := false;
      for i := 0 to |addrs|
        invariant forall j | 0 <= j < i :: !In(slots[j], subnet)
        invariant Value() == old(Value())
      {
        var slot := SlotOf(addrs[i]);
        assert slot == slots[i];
        if slot.Missing? || slot.Malformed? {
          continue;
        }
        if Contains(subnet, slot.ip) {
          var rest := addrs[..i] + addrs[i + 1..];
          if subnet.family.V4? { ipv4Addrs := Some(rest); } else { ipv6Addrs := Some(rest); }
          removed := true;
          assert IsSplice(addrs, rest, subnet) by {
            assert FirstAt(slots, i, subnet);
          }
          return;
        }
      }
    }

    /** Clears the host of every entry. */
    static method ClearHosts(l: Option<seq<HostAddr>>) returns (cleared: seq<HostAddr>)
      ensures cleared == Cleared(l)
    {
      cleared := Items(l);
      for i := 0 to |cleared|
        invariant |cleared| == |Items(l)|
        invariant forall j | 0 <= j < |cleared| ::
          cleared[j] == if j < i then Items(l)[j].(host := "") else Items(l)[j]
      {
        cleared := cleared[i := cleared[i].(host := "")];
      }
    }

    /** Clears what the server would refuse in an update. */
    method PrepareForUpdate()
      modifies this
      ensures Value() == Prepared(old(Value()))
      ensures zone == "" && networkView == "" && ipv4Addrs.Some? && ipv6Addrs.Some?
      ensures |ipv4Addrs.value| == |old(Items(ipv4Addrs))| && |ipv6Addrs.value| == |old(Items(ipv6Addrs))|
      ensures forall i | 0 <= i < |ipv4Addrs.value| ::
                ipv4Addrs.value[i] == HostAddr(old(Items(ipv4Addrs))[i].text, "")
      ensures forall i | 0 <= i < |ipv6Addrs.value| ::
                ipv6Addrs.value[i] == HostAddr(old(Items(ipv6Addrs))[i].text, "")
      ensures ref == old(ref) && name == old(name) && enableDns == old(enableDns) && dnsView == old(dnsView)
    {
      zone := "";
      networkView := "";
      if ipv4Addrs.None? { ipv4Addrs := Some([]); }
      if ipv6Addrs.None? { ipv6Addrs := Some([]); }
      var cleared := ClearHosts(ipv4Addrs);
      ipv4Addrs := Some(cleared);
      cleared := ClearHosts(ipv6Addrs);
      ipv6Addrs := Some(cleared);
      assert ipv4Addrs.value == Cleared(old(ipv4Addrs));
      assert ipv6Addrs.value == Cleared(old(ipv6Addrs));
    }
  }

  function Replaced(o: HostObject, f: Family, l: seq<HostAddr>): HostObject {
    if f.V4? then o.(v4 := Some(l)) else o.(v6 := Some(l))
  }

  function Requesting(o: HostObject, s: Subnet, view: string): HostObject {
    Replaced(o, s.family, o.List(s.family) + [HostAddr(NextAvailable(s, view), "")])
  }

  /** `m` is `l` without the first entry whose address lies in the subnet. */
  ghost predicate IsSplice(l: seq<HostAddr>, m: seq<HostAddr>, s: Subnet) {
    exists k | 0 <= k < |l| && FirstAt(Slots(l), k, s) :: m == l[..k] + l[k + 1..]
  }

  /** The spliced entries carry exactly the slots of "remove the first, keep the rest". */
  lemma {:induction false} SpliceRemovesFirst(l: seq<HostAddr>, m: seq<HostAddr>, s: Subnet)
    requires IsSplice(l, m, s)
    ensures Slots(m) == RemoveFirstIn(Slots(l), s)
    ensures forall h | h in m :: h in l
  {
    var k :| 0 <= k < |l| && FirstAt(Slots(l), k, s) && m == l[..k] + l[k + 1..];
    FirstAtDecides(Slots(l), k, s);
    assert Slots(m) == Slots(l)[..k] + Slots(l)[k + 1..];
  }
}
