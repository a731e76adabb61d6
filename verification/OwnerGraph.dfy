/** Kubernetes objects, their owner references, and what matching a group and kind means. */
module OwnerGraph {
  import opened Outcomes

  datatype GroupKind = GroupKind(group: string, kind: string)

  datatype OwnerRef = OwnerRef(apiVersion: string, kind: string, name: string)

  datatype Object = Object(namespace: string, owners: seq<OwnerRef>)

  /** Objects are fetched by API version, kind, namespace and name. */
  datatype ObjectKey = ObjectKey(apiVersion: string, kind: string, namespace: string, name: string)

  /** The cluster during one search. `None` is any failure to fetch. */
  type Cluster = ObjectKey -> Option<Object>

  function Owner(cluster: Cluster, obj: Object, o: OwnerRef): Option<Object> {
    cluster(ObjectKey(o.apiVersion, o.kind, obj.namespace, o.name))
  }

  /** The text split at every slash. */
  function Split(s: string): (parts: seq<string>)
    ensures |parts| >= 1
  {
    if s == "" then [""]
    else
      var rest := Split(s[1..]);
      if s[0] == '/' then [""] + rest else [[s[0]] + rest[0]] + rest[1..]
  }

  /** The group of an API version: empty unless there is exactly one slash. */
  function GroupOf(apiVersion: string): string {
    var parts := Split(apiVersion);
    if |parts| == 2 then parts[0] else ""
  }

  lemma {:induction false} SplitWithoutSlash(s: string)
    requires '/' !in s
    ensures Split(s) == [s]
  {
    if s != "" {
      SplitWithoutSlash(s[1..]);
      assert s == [s[0]] + s[1..];
    }
  }

  lemma {:induction false} SplitAtSlash(g: string, rest: string)
    requires '/' !in g
    ensures Split(g + "/" + rest) == [g] + Split(rest)
  {
    var s := g + "/" + rest;
    if g == "" {
      assert s == ['/'] + rest && s[1..] == rest;
    } else {
      SplitAtSlash(g[1..], rest);
      assert s[1..] == g[1..] + "/" + rest;
      assert g == [g[0]] + g[1..];
    }
  }

  /** The parts of a split joined by slashes are the text again. */
  lemma {:induction false} SplitIsLossless(s: string)
    ensures Join(Split(s)) == s
    ensures forall p | p in Split(s) :: '/' !in p
  {
    if s != "" {
      SplitIsLossless(s[1..]);
      var rest := Split(s[1..]);
      if s[0] == '/' {
        assert ([""] + rest)[1..] == rest;
      } else {
        var parts := [[s[0]] + rest[0]] + rest[1..];
        assert parts[1..] == rest[1..];
        assert s == [s[0]] + s[1..];
      }
    }
  }

  function Join(parts: seq<string>): string
    requires |parts| >= 1
  {
    if |parts| == 1 then parts[0] else parts[0] + "/" + Join(parts[1..])
  }

  /** An API version is in a named group exactly when it reads "group/version". */
  lemma {:induction false} GroupOfIff(apiVersion: string, g: string)
    requires g != ""
    ensures GroupOf(apiVersion) == g <==>
      exists v :: '/' !in g && '/' !in v && apiVersion == g + "/" + v
  {
    var parts := Split(apiVersion);
    SplitIsLossless(apiVersion);
    if |parts| == 2 && parts[0] == g {
      assert Join(parts) == g + "/" + Join(parts[1..]);
      assert apiVersion == g + "/" + parts[1];
      assert '/' !in parts[1];
    }
    forall v | '/' !in g && '/' !in v && apiVersion == g + "/" + v
      ensures GroupOf(apiVersion) == g
    {
      SplitAtSlash(g, v);
      SplitWithoutSlash(v);
    }
  }

  predicate IsA(o: OwnerRef, gk: GroupKind) {
    o.kind == gk.kind && GroupOf(o.apiVersion) == gk.group
  }

  /**
    An owner is of a kind of a named group if its kind is that one and its API version reads
    "group/version". With the group left empty its version must be of no named group.
   */
  lemma {:induction false} IsAIff(o: OwnerRef, gk: GroupKind)
    ensures
      if gk.group != "" then
        IsA(o, gk) <==>
          (o.kind == gk.kind && exists v :: '/' !in gk.group && '/' !in v && o.apiVersion == gk.group + "/" + v)
      else
        IsA(o, gk) <==>
          (o.kind == gk.kind && !exists g, v :: g != "" && '/' !in g && '/' !in v && o.apiVersion == g + "/" + v)
  {
    if gk.group != "" {
      GroupOfIff(o.apiVersion, gk.group);
    } else {
      if GroupOf(o.apiVersion) != "" {
        GroupOfIff(o.apiVersion, GroupOf(o.apiVersion));
      }
      forall g, v | g != "" && '/' !in g && '/' !in v && o.apiVersion == g + "/" + v
        ensures GroupOf(o.apiVersion) != ""
      {
        GroupOfIff(o.apiVersion, g);
      }
    }
  }

  /** The first owner reference of the group and kind. */
  function FirstOwner(owners: seq<OwnerRef>, gk: GroupKind): Option<OwnerRef> {
    if owners == [] then None
    else if IsA(owners[0], gk) then Some(owners[0])
    else FirstOwner(owners[1..], gk)
  }

  lemma {:induction false} FirstOwnerSpec(owners: seq<OwnerRef>, gk: GroupKind)
    ensures FirstOwner(owners, gk).None? <==> forall o | o in owners :: !IsA(o, gk)
    ensures FirstOwner(owners, gk).Some? ==>
      FirstOwner(owners, gk).value in owners && IsA(FirstOwner(owners, gk).value, gk)
  {
    if owners != [] {
      FirstOwnerSpec(owners[1..], gk);
    }
  }

  /** A loop that stops at the first match, at index k, has found the first owner. */
  lemma {:induction false} FirstOwnerAt(owners: seq<OwnerRef>, k: nat, gk: GroupKind)
    requires k < |owners| && IsA(owners[k], gk) && forall j | 0 <= j < k :: !IsA(owners[j], gk)
    ensures FirstOwner(owners, gk) == Some(owners[k])
  {
    if k > 0 {
      FirstOwnerAt(owners[1..], k - 1, gk);
    }
  }
}
