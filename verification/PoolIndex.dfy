/** The index that finds the claims referring to a pool, and the filter behind it. */
module PoolIndex {
  import opened OwnerGraph

  const IPAM_GROUP := "ipam.cluster.x-k8s.io"

  datatype PoolRef = PoolRef(apiGroup: string, kind: string, name: string)

  datatype Claim = Claim(apiVersion: string, namespace: string, name: string, poolRef: PoolRef)

  /** The indexed value: kind and name run together. */
  function IndexKey(ref: PoolRef): string {
    ref.kind + ref.name
  }

  predicate IsIpam(c: Claim) {
    GroupOf(c.apiVersion) == IPAM_GROUP
  }

  /** The claim names a pool of this kind and name, whatever group it says the pool is of. */
  predicate Names(c: Claim, namespace: string, ref: PoolRef) {
    c.namespace == namespace && c.poolRef.kind == ref.kind && c.poolRef.name == ref.name
  }

  /** The claim refers to the pool: group, kind and name agree. */
  predicate Refers(c: Claim, namespace: string, ref: PoolRef) {
    c.namespace == namespace && c.poolRef == ref
  }

  /** What the cache lists for an indexed value in a namespace. */
  function Listed(claims: seq<Claim>, namespace: string, key: string): seq<Claim> {
    if claims == [] then []
    else
      var rest := Listed(claims[1..], namespace, key);
      if claims[0].namespace == namespace && IndexKey(claims[0].poolRef) == key then [claims[0]] + rest else rest
  }

  function OnlyIpam(claims: seq<Claim>): seq<Claim> {
    if claims == [] then []
    else if IsIpam(claims[0]) then [claims[0]] + OnlyIpam(claims[1..])
    else OnlyIpam(claims[1..])
  }

  /** The reference: a scan of all claims that compares the whole pool reference. */
  function FullScan(claims: seq<Claim>, namespace: string, ref: PoolRef): seq<Claim> {
    if claims == [] then []
    else
      var rest := FullScan(claims[1..], namespace, ref);
      if Refers(claims[0], namespace, ref) && IsIpam(claims[0]) then [claims[0]] + rest else rest
  }

  /** A scan that compares kind and name only. */
  function Scan(claims: seq<Claim>, namespace: string, ref: PoolRef): seq<Claim> {
    if claims == [] then []
    else
      var rest := Scan(claims[1..], namespace, ref);
      if Names(claims[0], namespace, ref) && IsIpam(claims[0]) then [claims[0]] + rest else rest
  }

  function Lookup(claims: seq<Claim>, namespace: string, ref: PoolRef): seq<Claim> {
    OnlyIpam(Listed(claims, namespace, IndexKey(ref)))
  }

  lemma {:induction false} OnlyIpamAppend(claims: seq<Claim>, c: Claim)
    ensures OnlyIpam(claims + [c]) == OnlyIpam(claims) + if IsIpam(c) then [c] else []
  {
    if claims == [] {
      assert [] + [c] == [c];
    } else {
      OnlyIpamAppend(claims[1..], c);
      assert (claims + [c])[1..] == claims[1..] + [c];
    }
  }

  method ListClaimsReferencingPool(claims: seq<Claim>, namespace: string, ref: PoolRef) returns (found: seq<Claim>)
    ensures found == Lookup(claims, namespace, ref)
  {
    var items := Listed(claims, namespace, IndexKey(ref));
    found := [];
    for i := 0 to |items|
      invariant found == OnlyIpam(items[..i])
    {
      OnlyIpamAppend(items[..i], items[i]);
      assert items[..i + 1] == items[..i] + [items[i]];
      if !IsIpam(items[i]) {
        continue;
      }
      found := found + [items[i]];
    }
    assert items[..|items|] == items;
  }

  // ---------- the index against the scan ----------

  lemma {:induction false} LookupMembers(claims: seq<Claim>, namespace: string, ref: PoolRef)
    ensures forall c :: c in Lookup(claims, namespace, ref) <==>
      (&& c in claims && c.namespace == namespace
       && c.poolRef.kind + c.poolRef.name == ref.kind + ref.name
       && exists v :: '/' !in v && c.apiVersion == "ipam.cluster.x-k8s.io" + "/" + v)
  {
    forall c: Claim
      ensures IsIpam(c) <==> exists v :: '/' !in v && c.apiVersion == "ipam.cluster.x-k8s.io" + "/" + v
    {
      GroupOfIff(c.apiVersion, IPAM_GROUP);
    }
    hide IsIpam;
    ListedMembers(claims, namespace, ref);
  }

  lemma {:induction false} ListedMembers(claims: seq<Claim>, namespace: string, ref: PoolRef)
    ensures forall c :: c in Lookup(claims, namespace, ref) <==>
      c in claims && c.namespace == namespace && IndexKey(c.poolRef) == IndexKey(ref) && IsIpam(c)
  {
    if claims != [] {
      ListedMembers(claims[1..], namespace, ref);
      var rest := Listed(claims[1..], namespace, IndexKey(ref));
      assert ([claims[0]] + rest)[1..] == rest;
    }
  }

  /** A claim of the IPAM group that names the pool is never missed. */
  lemma {:induction false} NeverMisses(claims: seq<Claim>, namespace: string, ref: PoolRef, c: Claim)
    requires c in claims && Names(c, namespace, ref) && IsIpam(c)
    ensures c in Lookup(claims, namespace, ref)
  {
    ListedMembers(claims, namespace, ref);
  }

  // ---------- names that the API server stores ----------

  predicate Alphanumeric(c: char) {
    'a' <= c <= 'z' || '0' <= c <= '9'
  }

  /**
    A lower-case subdomain name (section 2.1 of RFC 1123), as the claim's schema demands of a
    pool reference: alphanumerics, dashes and dots, every dot-separated label beginning and
    ending with an alphanumeric.
   */
  predicate LegalName(s: string) {
    && 1 <= |s| <= 253 && Alphanumeric(s[0]) && Alphanumeric(s[|s| - 1])
    && (forall i | 0 <= i < |s| :: Alphanumeric(s[i]) || s[i] == '-' || s[i] == '.')
    && (forall i | 0 < i < |s| :: s[i - 1] == '.' || s[i] == '.' ==> s[i - 1] != '-' && s[i] != '-' && s[i - 1] != s[i])
  }

  /** One label of such a name. */
  predicate IsLabel(s: string) {
    && s != "" && s[0] != '-' && s[|s| - 1] != '-'
    && forall i | 0 <= i < |s| :: 'a' <= s[i] <= 'z' || '0' <= s[i] <= '9' || s[i] == '-'
  }

  /** One or more labels, joined by dots. */
  ghost predicate IsDotted(s: string) {
    IsLabel(s) || exists i | 0 <= i < |s| :: s[i] == '.' && IsLabel(s[..i]) && IsDotted(s[i + 1..])
  }

  lemma {:induction false} LegalNameIff(s: string)
    ensures LegalName(s) <==> |s| <= 253 && IsDotted(s)
    decreases |s|
  {
    if LegalName(s) {
      LegalIsDotted(s);
    }
    if |s| <= 253 && IsDotted(s) && !IsLabel(s) {
      var i :| 0 <= i < |s| && s[i] == '.' && IsLabel(s[..i]) && IsDotted(s[i + 1..]);
      LegalNameIff(s[i + 1..]);
      JoinedIsLegal(s, i);
    }
  }

  lemma {:induction false} JoinedIsLegal(s: string, i: nat)
    requires |s| <= 253 && i < |s| && s[i] == '.' && IsLabel(s[..i]) && LegalName(s[i + 1..])
    ensures LegalName(s)
  {
    var first, rest := s[..i], s[i + 1..];
    assert s[0] == first[0] && s[i - 1] == first[i - 1] && s[i + 1] == rest[0] && s[|s| - 1] == rest[|rest| - 1];
    forall j | 0 <= j < |s|
      ensures Alphanumeric(s[j]) || s[j] == '-' || s[j] == '.'
      ensures j < i ==> s[j] != '.'
    {
      assert if j < i then s[j] == first[j] else j == i || s[j] == rest[j - i - 1];
    }
    forall j | 0 < j < |s| && (s[j - 1] == '.' || s[j] == '.')
      ensures s[j - 1] != '-' && s[j] != '-' && s[j - 1] != s[j]
    {
      if j > i + 1 {
        assert s[j] == rest[j - i - 1] && s[j - 1] == rest[j - i - 2];
      }
    }
  }

  lemma {:induction false} LegalIsDotted(s: string)
    requires LegalName(s)
    ensures IsDotted(s)
    decreases |s|
  {
    if '.' in s {
      var i := FirstDot(s);
      RestIsLegal(s, i);
      LegalIsDotted(s[i + 1..]);
    }
  }

  lemma {:induction false} RestIsLegal(s: string, i: nat)
    requires LegalName(s) && i < |s| && s[i] == '.' && '.' !in s[..i]
    ensures IsLabel(s[..i]) && LegalName(s[i + 1..])
  {
    var first, rest := s[..i], s[i + 1..];
    assert s[i - 1] != '-' && s[i + 1] != '-' && s[i + 1] != '.';
    assert forall j | 0 <= j < i :: first[j] == s[j] && first[j] in first;
    assert forall j | 0 <= j < |rest| :: rest[j] == s[j + i + 1];
    forall j | 0 < j < |rest| && (rest[j - 1] == '.' || rest[j] == '.')
      ensures rest[j - 1] != '-' && rest[j] != '-' && rest[j - 1] != rest[j]
    {
      assert rest[j] == s[j + i + 1] && rest[j - 1] == s[j + i];
    }
  }

  lemma {:induction false} FirstDot(s: string) returns (i: nat)
    requires '.' in s
    ensures i < |s| && s[i] == '.' && '.' !in s[..i]
  {
    if s[0] == '.' {
      i := 0;
    } else {
      var j := FirstDot(s[1..]);
      i := j + 1;
      assert s[..i] == [s[0]] + s[1..][..j];
    }
  }

  /** Some legal name is `x` followed by a legal name. */
  predicate BeginsName(x: string) {
    LegalName(x + "a")
  }

  lemma {:induction false} BeginsNameIff(x: string)
    ensures BeginsName(x) <==> exists rest :: LegalName(rest) && LegalName(x + rest)
  {
    if BeginsName(x) {
      assert LegalName("a");
    }
    forall rest | LegalName(rest) && LegalName(x + rest)
      ensures BeginsName(x)
    {
      var s, t := x + rest, x + "a";
      assert forall i | 0 <= i < |x| :: t[i] == s[i];
      assert t[0] == if x == "" then 'a' else s[0];
      assert |x| > 0 && s[|x| - 1] == '.' ==> t[|x| - 1] == '.';
    }
  }

  /** The claims that refer to pools, and the pool looked for, have names the API server stores. */
  ghost predicate Storable(claims: seq<Claim>, kinds: set<string>) {
    forall c | c in claims :: c.poolRef.kind in kinds && LegalName(c.poolRef.name)
  }

  /** No kind extends another by something a name can begin with. */
  predicate Unambiguous(kinds: set<string>) {
    forall k, l | k in kinds && l in kinds && k < l :: !BeginsName(l[|k|..])
  }

  /** With unambiguous kinds the run-together key determines kind and name. */
  lemma {:induction false} KeyDetermines(kinds: set<string>, p: PoolRef, q: PoolRef)
    requires Unambiguous(kinds) && p.kind in kinds && q.kind in kinds && IndexKey(p) == IndexKey(q)
    requires LegalName(p.name) && LegalName(q.name)
    ensures p.kind == q.kind && p.name == q.name
  {
    NotExtended(kinds, p, q);
    NotExtended(kinds, q, p);
    hide Unambiguous, LegalName;
    var s := IndexKey(p);
    PrefixesOfOne(p.kind, q.kind, s);
    assert s[|p.kind|..] == p.name && s[|q.kind|..] == q.name;
  }

  lemma {:induction false} NotExtended(kinds: set<string>, p: PoolRef, q: PoolRef)
    requires Unambiguous(kinds) && p.kind in kinds && q.kind in kinds && IndexKey(p) == IndexKey(q)
    requires LegalName(p.name) && LegalName(q.name)
    ensures !(p.kind < q.kind)
  {
    hide LegalName, BeginsName;
    if p.kind < q.kind {
      var x := q.kind[|p.kind|..];
      assert q.kind == p.kind + x;
      assert IndexKey(p)[|p.kind|..] == p.name;
      assert IndexKey(q)[|p.kind|..] == x + q.name;
      BeginsNameIff(x);
    }
  }

  lemma {:induction false} PrefixesOfOne(a: string, b: string, s: string)
    requires a <= s && b <= s
    ensures a <= b || b <= a
  {
    assert s[..|a|] == a && s[..|b|] == b;
  }

  lemma {:induction false} LookupIsScan(kinds: set<string>, claims: seq<Claim>, namespace: string, ref: PoolRef)
    requires Unambiguous(kinds) && Storable(claims, kinds) && ref.kind in kinds && LegalName(ref.name)
    ensures Lookup(claims, namespace, ref) == Scan(claims, namespace, ref)
  {
    if claims != [] {
      LookupIsScan(kinds, claims[1..], namespace, ref);
      var rest := Listed(claims[1..], namespace, IndexKey(ref));
      assert ([claims[0]] + rest)[1..] == rest;
      if IndexKey(claims[0].poolRef) == IndexKey(ref) {
        KeyDetermines(kinds, claims[0].poolRef, ref);
      }
    }
  }

  lemma {:induction false} ApiVersionIsIpam()
    ensures GroupOf(IPAM_GROUP + "/v1beta2") == IPAM_GROUP
  {
    assert '/' !in IPAM_GROUP && '/' !in "v1beta2" && IPAM_GROUP + "/v1beta2" == IPAM_GROUP + "/" + "v1beta2";
    GroupOfIff(IPAM_GROUP + "/v1beta2", IPAM_GROUP);
  }

  /** Such an extension gives two storable pools of one namespace the same key. */
  lemma {:induction false} ExtensionCollides(namespace: string, k: string, l: string)
    requires k < l && BeginsName(l[|k|..])
    ensures var ref := PoolRef(IPAM_GROUP, k, l[|k|..] + "a");
      var c := Claim(IPAM_GROUP + "/v1beta2", namespace, "c", PoolRef(IPAM_GROUP, l, "a"));
      && LegalName(ref.name) && LegalName(c.poolRef.name) && !Names(c, namespace, ref)
      && Lookup([c], namespace, ref) == [c] && Scan([c], namespace, ref) == []
  {
    var ref := PoolRef(IPAM_GROUP, k, l[|k|..] + "a");
    var c := Claim(IPAM_GROUP + "/v1beta2", namespace, "c", PoolRef(IPAM_GROUP, l, "a"));
    assert k + (l[|k|..] + "a") == l + "a";
    assert LegalName("a");
    ApiVersionIsIpam();
    hide LegalName, GroupOf;
    assert Listed([c], namespace, IndexKey(ref)) == [c];
    assert OnlyIpam([c]) == [c];
  }

  /**
    In any namespace, the index finds what the scan finds, for all storable claims and pools of
    some kinds, exactly when none of the kinds extends another by something a name begins with.
   */
  lemma {:induction false} IndexExactIffUnambiguous(kinds: set<string>, namespace: string)
    ensures Unambiguous(kinds) <==>
      forall claims: seq<Claim>, ref: PoolRef |
        Storable(claims, kinds) && ref.kind in kinds && LegalName(ref.name) ::
        Lookup(claims, namespace, ref) == Scan(claims, namespace, ref)
  {
    if Unambiguous(kinds) {
      forall claims: seq<Claim>, ref: PoolRef |
        Storable(claims, kinds) && ref.kind in kinds && LegalName(ref.name)
        ensures Lookup(claims, namespace, ref) == Scan(claims, namespace, ref)
      {
        LookupIsScan(kinds, claims, namespace, ref);
      }
    } else {
      var k, l :| k in kinds && l in kinds && k < l && BeginsName(l[|k|..]);
      ExtensionCollides(namespace, k, l);
      var ref := PoolRef(IPAM_GROUP, k, l[|k|..] + "a");
      var c := Claim(IPAM_GROUP + "/v1beta2", namespace, "c", PoolRef(IPAM_GROUP, l, "a"));
      assert Storable([c], kinds) && ref.kind in kinds;
      assert Lookup([c], namespace, ref) != Scan([c], namespace, ref);
    }
  }

  /** In particular the index finds what the scan finds if no kind is a proper prefix of another. */
  lemma {:induction false} PrefixFreeIsExact(
      kinds: set<string>, claims: seq<Claim>, namespace: string, ref: PoolRef)
    requires forall k, l | k in kinds && l in kinds && k <= l :: k == l
    requires Storable(claims, kinds) && ref.kind in kinds && LegalName(ref.name)
    ensures Lookup(claims, namespace, ref) == Scan(claims, namespace, ref)
  {
    LookupIsScan(kinds, claims, namespace, ref);
  }

  // ---------- the group of the pool reference ----------

  /** Whoever names the pool in this namespace also means its group. */
  ghost predicate SameGroup(claims: seq<Claim>, namespace: string, ref: PoolRef) {
    forall c | c in claims && Names(c, namespace, ref) && IsIpam(c) :: c.poolRef.apiGroup == ref.apiGroup
  }

  lemma {:induction false} ScanIsFullScanIff(claims: seq<Claim>, namespace: string, ref: PoolRef)
    ensures |FullScan(claims, namespace, ref)| <= |Scan(claims, namespace, ref)|
    ensures Scan(claims, namespace, ref) == FullScan(claims, namespace, ref) <==> SameGroup(claims, namespace, ref)
  {
    if claims != [] {
      var c, s, f := claims[0], Scan(claims[1..], namespace, ref), FullScan(claims[1..], namespace, ref);
      ScanIsFullScanIff(claims[1..], namespace, ref);
      assert claims == [c] + claims[1..];
      assert ([c] + s)[1..] == s && ([c] + f)[1..] == f;
    }
  }

  /**
    The index ignores the group of the pool reference. For unambiguous kinds it lists exactly the
    claims that refer to the pool if and only if no claim of the namespace names a pool of
    another group with the same kind and name.
   */
  lemma {:induction false} IndexExactIffSameGroup(
      kinds: set<string>, claims: seq<Claim>, namespace: string, ref: PoolRef)
    requires Unambiguous(kinds) && Storable(claims, kinds) && ref.kind in kinds && LegalName(ref.name)
    ensures Lookup(claims, namespace, ref) == FullScan(claims, namespace, ref) <==>
      SameGroup(claims, namespace, ref)
  {
    LookupIsScan(kinds, claims, namespace, ref);
    ScanIsFullScanIff(claims, namespace, ref);
  }

  /** Such a claim is listed although it refers to another pool. */
  lemma {:induction false} OtherGroupIsListed(namespace: string, ref: PoolRef, group: string)
    requires group != ref.apiGroup
    ensures var c := Claim(IPAM_GROUP + "/v1beta2", namespace, "c", PoolRef(group, ref.kind, ref.name));
      Lookup([c], namespace, ref) == [c] && FullScan([c], namespace, ref) == []
  {
    var c := Claim(IPAM_GROUP + "/v1beta2", namespace, "c", PoolRef(group, ref.kind, ref.name));
    ApiVersionIsIpam();
    hide GroupOf;
    assert Listed([c], namespace, IndexKey(ref)) == [c];
    assert OnlyIpam([c]) == [c];
  }
}
