/**
  The address lists of a host record, and what releasing and allocating do to them.

  A slot is one entry of `ipv4addrs` or `ipv6addrs` as the server stores it.
 */
module AddressLists {
  import opened Outcomes
  import opened Prefixes

  /** `Missing` is a nil address pointer, `Malformed` a text that is no plain address. */
  datatype Slot = Missing | Malformed(text: string) | Ip(ip: Address)

  predicate In(x: Slot, s: Subnet) {
    x.Ip? && Contains(s, x.ip)
  }

  predicate InAny(x: Slot, pool: set<Subnet>) {
    exists s | s in pool :: In(x, s)
  }

  predicate NoneIn(l: seq<Slot>, s: Subnet) {
    forall i | 0 <= i < |l| :: !In(l[i], s)
  }

  function FirstIn(l: seq<Slot>, s: Subnet): Option<Address> {
    if l == [] then None
    else if In(l[0], s) then Some(l[0].ip)
    else FirstIn(l[1..], s)
  }

  function RemoveFirstIn(l: seq<Slot>, s: Subnet): seq<Slot> {
    if l == [] then []
    else if In(l[0], s) then l[1..]
    else [l[0]] + RemoveFirstIn(l[1..], s)
  }

  /** The slots outside every subnet of the pool, in order. */
  function Outside(l: seq<Slot>, pool: set<Subnet>): seq<Slot> {
    if l == [] then []
    else if InAny(l[0], pool) then Outside(l[1..], pool)
    else [l[0]] + Outside(l[1..], pool)
  }

  function CountIn(l: seq<Slot>, s: Subnet): nat {
    if l == [] then 0 else (if In(l[0], s) then 1 else 0) + CountIn(l[1..], s)
  }

  predicate FirstAt(l: seq<Slot>, j: nat, s: Subnet)
    requires j < |l|
  {
    In(l[j], s) && forall i | 0 <= i < j :: !In(l[i], s)
  }

  /** Every pool address is the first one of its list in some subnet of the pool. */
  predicate Guarded(l: seq<Slot>, pool: set<Subnet>) {
    forall j | 0 <= j < |l| && InAny(l[j], pool) :: exists s | s in pool :: FirstAt(l, j, s)
  }

  // ---------- first and remove-first ----------

  lemma {:induction false} FirstInSpec(l: seq<Slot>, s: Subnet)
    ensures FirstIn(l, s).None? <==> NoneIn(l, s)
    ensures FirstIn(l, s).None? ==> RemoveFirstIn(l, s) == l
    ensures FirstIn(l, s).Some? ==> Contains(s, FirstIn(l, s).value)
  {
    if l != [] {
      FirstInSpec(l[1..], s);
      assert forall i | 1 <= i < |l| :: l[i] == l[1..][i - 1];
    }
  }

  /** The scan and the splice of a loop that stops at index k. */
  lemma {:induction false} FirstAtDecides(l: seq<Slot>, k: nat, s: Subnet)
    requires k < |l| && FirstAt(l, k, s)
    ensures FirstIn(l, s) == Some(l[k].ip)
    ensures RemoveFirstIn(l, s) == l[..k] + l[k + 1..]
  {
    if k > 0 {
      var t := l[1..];
      assert forall i | 0 <= i < k - 1 :: t[i] == l[i + 1];
      FirstAtDecides(t, k - 1, s);
      assert l[..k] + l[k + 1..] == [l[0]] + (t[..k - 1] + t[k..]);
    }
  }

  /** Whoever the first address is, it stands at some index. */
  lemma {:induction false} FirstIndex(l: seq<Slot>, s: Subnet) returns (k: nat)
    requires !NoneIn(l, s)
    ensures k < |l| && FirstAt(l, k, s)
  {
    if In(l[0], s) {
      k := 0;
    } else {
      var t := l[1..];
      assert !NoneIn(t, s) by {
        var i :| 0 <= i < |l| && In(l[i], s);
        assert t[i - 1] == l[i];
      }
      var j := FirstIndex(t, s);
      k := j + 1;
      assert forall i | 1 <= i < k :: l[i] == t[i - 1];
    }
  }

  lemma {:induction false} FirstInAppended(l: seq<Slot>, a: Address, s: Subnet)
    requires NoneIn(l, s) && Contains(s, a)
    ensures FirstIn(l + [Ip(a)], s) == Some(a)
    ensures RemoveFirstIn(l + [Ip(a)], s) == l
  {
    var m := l + [Ip(a)];
    FirstAtDecides(m, |l|, s);
    assert m[..|l|] + m[|l| + 1..] == l;
  }

  // ---------- releasing once: when is nothing left? ----------

  lemma {:induction false} CountZero(l: seq<Slot>, s: Subnet)
    ensures CountIn(l, s) == 0 <==> NoneIn(l, s)
  {
    if l != [] {
      CountZero(l[1..], s);
      assert forall i | 1 <= i < |l| :: l[i] == l[1..][i - 1];
    }
  }

  lemma {:induction false} RemoveCounts(l: seq<Slot>, s: Subnet)
    ensures CountIn(RemoveFirstIn(l, s), s) == if CountIn(l, s) == 0 then 0 else CountIn(l, s) - 1
  {
    if l != [] && !In(l[0], s) {
      RemoveCounts(l[1..], s);
      assert ([l[0]] + RemoveFirstIn(l[1..], s))[1..] == RemoveFirstIn(l[1..], s);
    }
  }

  /** One release clears a subnet exactly when the list held at most one address of it. */
  lemma {:induction false} ReleaseClearsIffAtMostOne(l: seq<Slot>, s: Subnet)
    ensures NoneIn(RemoveFirstIn(l, s), s) <==> CountIn(l, s) <= 1
  {
    RemoveCounts(l, s);
    CountZero(RemoveFirstIn(l, s), s);
  }

  // ---------- what lies outside a pool ----------

  lemma {:induction false} OutsideConcat(l: seq<Slot>, m: seq<Slot>, pool: set<Subnet>)
    ensures Outside(l + m, pool) == Outside(l, pool) + Outside(m, pool)
  {
    hide InAny;
    if l == [] {
      assert l + m == m;
    } else {
      var x, a, b := [l[0]], Outside(l[1..], pool), Outside(m, pool);
      OutsideConcat(l[1..], m, pool);
      assert (l + m)[1..] == l[1..] + m && (l + m)[0] == l[0];
      assert x + (a + b) == (x + a) + b;
    }
  }

  lemma {:induction false} OutsideIgnoresRemoval(l: seq<Slot>, s: Subnet, pool: set<Subnet>)
    requires s in pool
    ensures Outside(RemoveFirstIn(l, s), pool) == Outside(l, pool)
  {
    if l != [] && !In(l[0], s) {
      OutsideIgnoresRemoval(l[1..], s, pool);
      assert ([l[0]] + RemoveFirstIn(l[1..], s))[1..] == RemoveFirstIn(l[1..], s);
    }
  }

  lemma {:induction false} OutsideUnchanged(l: seq<Slot>, pool: set<Subnet>)
    requires forall j | 0 <= j < |l| :: !InAny(l[j], pool)
    ensures Outside(l, pool) == l
  {
    if l != [] {
      assert forall j | 0 <= j < |l| - 1 :: l[1..][j] == l[j + 1];
      OutsideUnchanged(l[1..], pool);
    }
  }

  lemma {:induction false} OutsideIsOutside(l: seq<Slot>, pool: set<Subnet>)
    ensures forall x | x in Outside(l, pool) :: x in l && !InAny(x, pool)
  {
    if l != [] {
      OutsideIsOutside(l[1..], pool);
    }
  }

  // ---------- the guard, and a release pass over the whole pool ----------

  lemma {:induction false} GuardedAppend(l: seq<Slot>, a: Address, s: Subnet, pool: set<Subnet>)
    requires Guarded(l, pool) && s in pool && NoneIn(l, s) && Contains(s, a)
    ensures Guarded(l + [Ip(a)], pool)
  {
    var m := l + [Ip(a)];
    forall j | 0 <= j < |m| && InAny(m[j], pool)
      ensures exists t | t in pool :: FirstAt(m, j, t)
    {
      if j < |l| {
        var t :| t in pool && FirstAt(l, j, t);
        assert FirstAt(m, j, t);
      } else {
        assert FirstAt(m, j, s);
      }
    }
  }

  /** Removing slot k leaves every other slot at least as early as it was. */
  lemma {:induction false} StillFirst(l: seq<Slot>, k: nat, j: nat, t: Subnet)
    requires k < |l| && j < |l| && j != k && FirstAt(l, j, t)
    ensures var m := l[..k] + l[k + 1..]; var i := if j < k then j else j - 1;
      m[i] == l[j] && FirstAt(m, i, t)
  {
    var m := l[..k] + l[k + 1..];
    var i := if j < k then j else j - 1;
    forall h | 0 <= h < i ensures !In(m[h], t) {
      var g := if h < k then h else h + 1;
      assert m[h] == l[g];
    }
  }

  lemma {:induction false} GuardedRemoval(l: seq<Slot>, s: Subnet, pool: set<Subnet>)
    requires Guarded(l, pool)
    ensures Guarded(RemoveFirstIn(l, s), pool)
  {
    if NoneIn(l, s) {
      FirstInSpec(l, s);
    } else {
      var k := FirstIndex(l, s);
      FirstAtDecides(l, k, s);
      var m := l[..k] + l[k + 1..];
      forall i | 0 <= i < |m| && InAny(m[i], pool)
        ensures exists t | t in pool :: FirstAt(m, i, t)
      {
        var j := if i < k then i else i + 1;
        assert m[i] == l[j];
        var t :| t in pool && FirstAt(l, j, t);
        StillFirst(l, k, j, t);
      }
    }
  }

  /** Two slots of a guarded list never share a subnet that is disjoint from the others. */
  lemma {:induction false} SecondLiesElsewhere(l: seq<Slot>, i: nat, j: nat, s: Subnet, pool: set<Subnet>)
    requires Guarded(l, pool) && s in pool && i < j < |l| && In(l[i], s)
    requires forall t | t in pool && t != s :: Disjoint(s, t)
    ensures !In(l[j], s)
  {
    if InAny(l[j], pool) {
      var t :| t in pool && FirstAt(l, j, t);
      assert t != s;
    }
  }

  /** With pairwise disjoint subnets the guard says: at most one address per subnet. */
  lemma {:induction false} GuardedMeansAtMostOne(l: seq<Slot>, s: Subnet, pool: set<Subnet>)
    requires Guarded(l, pool) && s in pool
    requires forall t | t in pool && t != s :: Disjoint(s, t)
    ensures CountIn(l, s) <= 1
  {
    if NoneIn(l, s) {
      CountZero(l, s);
    } else {
      var k := FirstIndex(l, s);
      FirstAtDecides(l, k, s);
      var m := l[..k] + l[k + 1..];
      forall i | 0 <= i < |m| ensures !In(m[i], s) {
        if i >= k {
          SecondLiesElsewhere(l, k, i + 1, s, pool);
        }
      }
      ReleaseClearsIffAtMostOne(l, s);
    }
  }

  /** Conversely, at most one address per subnet is a guard, whatever the subnets. */
  lemma {:induction false} AtMostOneIsGuarded(l: seq<Slot>, pool: set<Subnet>)
    requires forall s | s in pool :: CountIn(l, s) <= 1
    ensures Guarded(l, pool)
  {
    forall j | 0 <= j < |l| && InAny(l[j], pool)
      ensures exists s | s in pool :: FirstAt(l, j, s)
    {
      var s :| s in pool && In(l[j], s);
      CountSplit(l[..j], l[j..], s);
      assert l == l[..j] + l[j..];
      CountZero(l[..j], s);
      assert forall i | 0 <= i < j :: l[i] == l[..j][i];
      assert FirstAt(l, j, s);
    }
  }

  lemma {:induction false} CountSplit(l: seq<Slot>, m: seq<Slot>, s: Subnet)
    ensures CountIn(l + m, s) == CountIn(l, s) + CountIn(m, s)
  {
    if l == [] {
      assert l + m == m;
    } else {
      CountSplit(l[1..], m, s);
      assert (l + m)[1..] == l[1..] + m;
    }
  }

  /** The lists a pass over `subs` leaves, one release per subnet, in order. */
  function ReleaseEach(l: seq<Slot>, subs: seq<Subnet>): seq<Slot>
    decreases |subs|
  {
    if subs == [] then l else ReleaseEach(RemoveFirstIn(l, subs[0]), subs[1..])
  }

  /** Whatever is in the pool is first in one of the subnets still to be visited. */
  ghost predicate Doomed(l: seq<Slot>, subs: seq<Subnet>, pool: set<Subnet>) {
    forall j | 0 <= j < |l| && InAny(l[j], pool) :: exists s | s in subs :: FirstAt(l, j, s)
  }

  lemma {:induction false} DoomedStep(l: seq<Slot>, subs: seq<Subnet>, pool: set<Subnet>)
    requires subs != [] && Doomed(l, subs, pool)
    ensures Doomed(RemoveFirstIn(l, subs[0]), subs[1..], pool)
  {
    var s := subs[0];
    if NoneIn(l, s) {
      FirstInSpec(l, s);
    } else {
      var k := FirstIndex(l, s);
      FirstAtDecides(l, k, s);
      var m := l[..k] + l[k + 1..];
      forall i | 0 <= i < |m| && InAny(m[i], pool)
        ensures exists t | t in subs[1..] :: FirstAt(m, i, t)
      {
        var j := if i < k then i else i + 1;
        assert m[i] == l[j];
        var t :| t in subs && FirstAt(l, j, t);
        StillFirst(l, k, j, t);
      }
    }
  }

  /** A full pass leaves exactly what lies outside the pool, even if its subnets overlap. */
  lemma {:induction false} PassLeavesOutside(l: seq<Slot>, subs: seq<Subnet>, pool: set<Subnet>)
    requires Doomed(l, subs, pool) && forall s | s in subs :: s in pool
    ensures ReleaseEach(l, subs) == Outside(l, pool)
    decreases |subs|
  {
    if subs == [] {
      OutsideUnchanged(l, pool);
    } else {
      DoomedStep(l, subs, pool);
      OutsideIgnoresRemoval(l, subs[0], pool);
      PassLeavesOutside(RemoveFirstIn(l, subs[0]), subs[1..], pool);
    }
  }

  lemma {:induction false} ReleaseEachCounts(l: seq<Slot>, subs: seq<Subnet>, s: Subnet)
    ensures CountIn(ReleaseEach(l, subs), s) <= CountIn(l, s)
    ensures s in subs && CountIn(l, s) <= 1 ==> NoneIn(ReleaseEach(l, subs), s)
    decreases |subs|
  {
    if subs != [] {
      var m := RemoveFirstIn(l, subs[0]);
      RemovalCountsDown(l, subs[0], s);
      RemoveCounts(l, s);
      ReleaseEachCounts(m, subs[1..], s);
    }
    CountZero(ReleaseEach(l, subs), s);
  }

  lemma {:induction false} RemovalCountsDown(l: seq<Slot>, t: Subnet, s: Subnet)
    ensures CountIn(RemoveFirstIn(l, t), s) <= CountIn(l, s)
  {
    if l != [] && !In(l[0], t) {
      RemovalCountsDown(l[1..], t, s);
      assert ([l[0]] + RemoveFirstIn(l[1..], t))[1..] == RemoveFirstIn(l[1..], t);
    }
  }
}
