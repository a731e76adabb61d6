/** Admission of pools: what `validate` lets through, and what that means for the subnets. */
module PoolWebhook {
  import opened Outcomes
  import opened Prefixes

  /** A CIDR text: what it parses to, and whether it is spelled the way Go prints a network. */
  datatype CidrText = Unparsable | Cidr(prefix: Subnet, spelledCanonically: bool)

  /** A gateway text parses to an address of some family, or not at all. */
  datatype SubnetText = SubnetText(cidr: CidrText, gateway: Option<Family>)

  datatype PoolText = PoolText(subnets: seq<SubnetText>, instance: string)

  datatype FieldError =
    | SubnetsRequired | InstanceRequired
    | InvalidCidr(index: nat) | InvalidGateway(index: nat) | MixedFamilies(index: nat)

  /** The loop dereferences the parsed network without looking at the parse error. */
  datatype Verdict = Accepted | Rejected(errs: seq<FieldError>) | Panics

  /** `network.String() == CIDR` */
  predicate PrintsBack(c: CidrText) {
    c.Cidr? && Canonical(c.prefix) && c.spelledCanonically
  }

  predicate Valid(s: SubnetText) {
    PrintsBack(s.cidr) && s.gateway == Some(s.cidr.prefix.family)
  }

  predicate Admissible(p: PoolText) {
    p.subnets != [] && p.instance != "" && forall i | 0 <= i < |p.subnets| :: Valid(p.subnets[i])
  }

  predicate Complains(e: FieldError, p: PoolText) {
    match e
    case SubnetsRequired => p.subnets == []
    case InstanceRequired => p.instance == ""
    case InvalidCidr(i) => i < |p.subnets| && !PrintsBack(p.subnets[i].cidr)
    case InvalidGateway(i) => i < |p.subnets| && p.subnets[i].gateway.None?
    case MixedFamilies(i) =>
      i < |p.subnets| && p.subnets[i].cidr.Cidr? && p.subnets[i].gateway != Some(p.subnets[i].cidr.prefix.family)
  }

  /** Panics exactly on a CIDR that does not parse; else lists exactly the faults there are. */
  method Validate(p: PoolText) returns (v: Verdict)
    ensures v.Panics? <==> exists i :: 0 <= i < |p.subnets| && p.subnets[i].cidr.Unparsable?
    ensures v.Accepted? <==> Admissible(p)
    ensures v.Accepted? <==>
      (&& p.subnets != [] && p.instance != ""
       && forall i | 0 <= i < |p.subnets| ::
         var s := p.subnets[i];
         && s.cidr.Cidr? && s.cidr.spelledCanonically && Canonical(s.cidr.prefix)
         && s.gateway == Some(s.cidr.prefix.family))
    ensures v.Rejected? ==> forall e :: e in v.errs <==> Complains(e, p)
    ensures v.Rejected? ==>
      && (SubnetsRequired in v.errs <==> p.subnets == [])
      && (InstanceRequired in v.errs <==> p.instance == "")
      && forall i | 0 <= i < |p.subnets| ::
        var s := p.subnets[i];
        && (InvalidCidr(i) in v.errs <==> !(s.cidr.spelledCanonically && Canonical(s.cidr.prefix)))
        && (InvalidGateway(i) in v.errs <==> s.gateway.None?)
        && (MixedFamilies(i) in v.errs <==> s.gateway != Some(s.cidr.prefix.family))
  {
    var errs: seq<FieldError> := [];
    if |p.subnets| == 0 {
      errs := errs + [SubnetsRequired];
    }
    if p.instance == "" {
      errs := errs + [InstanceRequired];
    }
    for i := 0 to |p.subnets|
      invariant forall j | 0 <= j < i :: p.subnets[j].cidr.Cidr?
      invariant forall e | e in errs :: Complains(e, p)
      invariant p.subnets == [] ==> SubnetsRequired in errs
      invariant p.instance == "" ==> InstanceRequired in errs
      invariant forall j: nat | j < i ::
        && (Complains(InvalidCidr(j), p) ==> InvalidCidr(j) in errs)
        && (Complains(InvalidGateway(j), p) ==> InvalidGateway(j) in errs)
        && (Complains(MixedFamilies(j), p) ==> MixedFamilies(j) in errs)
      invariant errs == [] ==> forall j | 0 <= j < i :: Valid(p.subnets[j])
    {
      var subnet := p.subnets[i];
      var found: seq<FieldError> := [];
      if subnet.cidr.Unparsable? || !PrintsBack(subnet.cidr) {
        found := found + [InvalidCidr(i)];
      }
      if subnet.gateway.None? {
        found := found + [InvalidGateway(i)];
      }
      if subnet.cidr.Unparsable? {
        return Panics;
      }
      var network := subnet.cidr.prefix.family;
      var matched := (network.V4? && subnet.gateway == Some(V4)) || (network.V6? && subnet.gateway == Some(V6));
      if !matched {
        found := found + [MixedFamilies(i)];
      }
      errs := errs + found;
    }
    if errs == [] {
      return Accepted;
    }
    var e := errs[0];
    assert Complains(e, p);
    return Rejected(errs);
  }

  // ---------- what admission means for the subnets ----------

  /** The subnets of an admitted pool are aligned intervals, pairwise nested or disjoint. */
  lemma {:induction false} AdmittedSubnets(p: PoolText, i: nat, j: nat, a: Address)
    requires Admissible(p) && i < |p.subnets| && j < |p.subnets|
    ensures var s := p.subnets[i].cidr.prefix;
      var width := if s.family.V4? then 32 else 128;
      s.bits <= width &&
      var size := Pow2(width - s.bits);
      && (exists q: nat :: s.base == q * size)
      && (Contains(s, a) <==> a.family == s.family && s.base <= a.value < s.base + size)
    ensures var s, t := p.subnets[i].cidr.prefix, p.subnets[j].cidr.prefix;
      Disjoint(s, t) || Within(s, t) || Within(t, s)
  {
    assert Valid(p.subnets[i]) && Valid(p.subnets[j]);
    var s, t := p.subnets[i].cidr.prefix, p.subnets[j].cidr.prefix;
    CanonicalIsAlignedInterval(s, a);
    NestedOrDisjoint(s, t);
  }

  /** Admission does not make subnets disjoint: any prefix may stand beside half of itself. */
  lemma {:induction false} OverlapIsAdmitted(s: Subnet)
    requires Canonical(s) && s.bits < Width(s.family)
    ensures var half := Subnet(s.family, s.base, s.bits + 1);
      && !Disjoint(s, half)
      && Admissible(PoolText([SubnetText(Cidr(s, true), Some(s.family)),
                              SubnetText(Cidr(half, true), Some(s.family))], "instance"))
  {
    var half := Subnet(s.family, s.base, s.bits + 1);
    var h, q := HostBits(s), ShiftRight(s.base, HostBits(s));
    var b := Pow2(h - 1);
    assert Pow2(h) == 2 * b;
    assert q * (2 * b) == (2 * q) * b;
    ShiftIsBlock(s.base, h - 1, 2 * q);
    Pow2Positive(h - 1);
    assert Contains(s, Address(s.family, s.base)) && Contains(half, Address(s.family, s.base));
    assert Canonical(half);
  }

  lemma {:induction false} Pow2Positive(k: nat)
    ensures Pow2(k) > 0
  {
    if k > 0 {
      Pow2Positive(k - 1);
    }
  }
}
