/**
  The depth-bounded search for an owner of a given group and kind, and the walk along a fixed
  chain of kinds, over an arbitrary and possibly cyclic owner graph.
 */
module OwnerSearch {
  import opened Outcomes
  import opened OwnerGraph

  /**
    How the candidates of one visit are sorted. The comparator is no consistent order, so the
    sort is any permutation, and it may differ from visit to visit: `visit` is the number of
    fetches made so far.
   */
  type Order = (nat, seq<OwnerRef>) -> seq<OwnerRef>

  ghost predicate Permutes(order: Order) {
    forall visit, refs :: multiset(order(visit, refs)) == multiset(refs)
  }

  datatype Search = Search(cluster: Cluster, order: Order, searchFor: GroupKind, maxDepth: int)

  datatype SearchError = FetchFailed | NotFound | ChainBroken

  /** The outcome of a visit and the number of fetches so far. `Ok("")` means nothing found. */
  datatype Found = Found(result: Result<string, SearchError>, fetches: nat)

  function Left(c: Search, depth: int): nat {
    if depth >= c.maxDepth then 0 else c.maxDepth - depth
  }

  function Find(c: Search, obj: Object, depth: int, fetches: nat): Found
    decreases Left(c, depth), 1, 0
  {
    var hit := FirstOwner(obj.owners, c.searchFor);
    if hit.Some? then Found(Ok(hit.value.name), fetches)
    else FindVia(c, obj, c.order(fetches, obj.owners), depth, fetches)
  }

  function FindVia(c: Search, obj: Object, refs: seq<OwnerRef>, depth: int, fetches: nat): Found
    decreases Left(c, depth), 0, |refs|
  {
    if refs == [] then Found(Ok(""), fetches)
    else if depth >= c.maxDepth then FindVia(c, obj, refs[1..], depth, fetches)
    else
      var next := Owner(c.cluster, obj, refs[0]);
      if next.None? then Found(Err(FetchFailed), fetches + 1)
      else
        var r := Find(c, next.value, depth + 1, fetches + 1);
        if r.result.Err? || r.result.value != "" then r
        else FindVia(c, obj, refs[1..], depth, r.fetches)
  }

  ghost predicate Finds(f: Found) {
    f.result.Ok? && f.result.value != ""
  }

  // ---------- owner paths ----------

  ghost predicate IsPath(cluster: Cluster, obj: Object, p: seq<OwnerRef>)
    decreases |p|
  {
    && p != [] && p[0] in obj.owners
    && (|p| > 1 ==>
          var next := cluster(ObjectKey(p[0].apiVersion, p[0].kind, obj.namespace, p[0].name));
          next.Some? && IsPath(cluster, next.value, p[1..]))
  }

  /** A path that ends at the first match of the first object that has one. */
  ghost predicate IsDirect(cluster: Cluster, gk: GroupKind, obj: Object, p: seq<OwnerRef>)
    decreases |p|
  {
    && p != []
    && if |p| == 1 then FirstOwner(obj.owners, gk) == Some(p[0])
       else
         && FirstOwner(obj.owners, gk).None? && p[0] in obj.owners
         && Owner(cluster, obj, p[0]).Some?
         && IsDirect(cluster, gk, Owner(cluster, obj, p[0]).value, p[1..])
  }

  function Last(p: seq<OwnerRef>): OwnerRef
    requires p != []
  {
    p[|p| - 1]
  }

  /** Every object that a search with `n` references to go may visit can be fetched. */
  ghost predicate Fetchable(cluster: Cluster, gk: GroupKind, obj: Object, n: nat)
    decreases n
  {
    n <= 1 || FirstOwner(obj.owners, gk).Some? ||
    forall o | o in obj.owners ::
      Owner(cluster, obj, o).Some? && Fetchable(cluster, gk, Owner(cluster, obj, o).value, n - 1)
  }

  lemma {:induction false} DirectIsPath(cluster: Cluster, gk: GroupKind, obj: Object, p: seq<OwnerRef>)
    requires IsDirect(cluster, gk, obj, p)
    ensures IsPath(cluster, obj, p) && IsA(Last(p), gk)
    decreases |p|
  {
    FirstOwnerSpec(obj.owners, gk);
    if |p| > 1 {
      DirectIsPath(cluster, gk, Owner(cluster, obj, p[0]).value, p[1..]);
    }
  }

  /** Any path to a match passes the end of a direct one that is no longer. */
  lemma {:induction false} Shortcut(cluster: Cluster, gk: GroupKind, obj: Object, p: seq<OwnerRef>)
    returns (q: seq<OwnerRef>)
    requires IsPath(cluster, obj, p) && IsA(Last(p), gk)
    ensures IsDirect(cluster, gk, obj, q) && |q| <= |p|
    decreases |p|
  {
    FirstOwnerSpec(obj.owners, gk);
    if FirstOwner(obj.owners, gk).Some? {
      q := [FirstOwner(obj.owners, gk).value];
    } else {
      var tail := Shortcut(cluster, gk, Owner(cluster, obj, p[0]).value, p[1..]);
      q := [p[0]] + tail;
      assert q[1..] == tail;
    }
  }

  // ---------- the search finds exactly what is there ----------

  lemma {:induction false} OrderKeepsMembers(order: Order, visit: nat, refs: seq<OwnerRef>)
    requires Permutes(order)
    ensures |order(visit, refs)| == |refs| && forall o :: o in order(visit, refs) <==> o in refs
  {
    var sorted := order(visit, refs);
    assert multiset(sorted) == multiset(refs);
    assert |multiset(sorted)| == |sorted| && |multiset(refs)| == |refs|;
    assert forall o :: o in sorted <==> o in multiset(sorted);
    assert forall o :: o in refs <==> o in multiset(refs);
  }

  lemma {:induction false} FindSound(c: Search, obj: Object, depth: int, fetches: nat) returns (p: seq<OwnerRef>)
    requires Permutes(c.order) && Finds(Find(c, obj, depth, fetches))
    ensures IsDirect(c.cluster, c.searchFor, obj, p) && |p| <= Left(c, depth) + 1
    ensures Find(c, obj, depth, fetches).result == Ok(Last(p).name)
    decreases Left(c, depth), 1, 0
  {
    var hit := FirstOwner(obj.owners, c.searchFor);
    if hit.Some? {
      p := [hit.value];
    } else {
      OrderKeepsMembers(c.order, fetches, obj.owners);
      p := FindViaSound(c, obj, c.order(fetches, obj.owners), depth, fetches);
    }
  }

  lemma {:induction false} FindViaSound(c: Search, obj: Object, refs: seq<OwnerRef>, depth: int, fetches: nat)
    returns (p: seq<OwnerRef>)
    requires Permutes(c.order) && Finds(FindVia(c, obj, refs, depth, fetches))
    requires FirstOwner(obj.owners, c.searchFor).None? && forall o | o in refs :: o in obj.owners
    ensures IsDirect(c.cluster, c.searchFor, obj, p) && |p| <= Left(c, depth) + 1
    ensures FindVia(c, obj, refs, depth, fetches).result == Ok(Last(p).name)
    decreases Left(c, depth), 0, |refs|
  {
    if depth >= c.maxDepth {
      p := FindViaSound(c, obj, refs[1..], depth, fetches);
    } else {
      var next := Owner(c.cluster, obj, refs[0]).value;
      var r := Find(c, next, depth + 1, fetches + 1);
      if Finds(r) {
        var tail := FindSound(c, next, depth + 1, fetches + 1);
        p := [refs[0]] + tail;
        assert p[1..] == tail;
      } else {
        p := FindViaSound(c, obj, refs[1..], depth, r.fetches);
      }
    }
  }

  lemma {:induction false} FindNeverFails(c: Search, obj: Object, depth: int, fetches: nat)
    requires Permutes(c.order) && Fetchable(c.cluster, c.searchFor, obj, Left(c, depth) + 1)
    ensures Find(c, obj, depth, fetches).result.Ok?
    decreases Left(c, depth), 1, 0
  {
    if FirstOwner(obj.owners, c.searchFor).None? {
      OrderKeepsMembers(c.order, fetches, obj.owners);
      FindViaNeverFails(c, obj, c.order(fetches, obj.owners), depth, fetches);
    }
  }

  lemma {:induction false} FindViaNeverFails(c: Search, obj: Object, refs: seq<OwnerRef>, depth: int, fetches: nat)
    requires Permutes(c.order) && Fetchable(c.cluster, c.searchFor, obj, Left(c, depth) + 1)
    requires FirstOwner(obj.owners, c.searchFor).None? && forall o | o in refs :: o in obj.owners
    ensures FindVia(c, obj, refs, depth, fetches).result.Ok?
    decreases Left(c, depth), 0, |refs|
  {
    if refs != [] {
      if depth >= c.maxDepth {
        FindViaNeverFails(c, obj, refs[1..], depth, fetches);
      } else {
        var next := Owner(c.cluster, obj, refs[0]).value;
        FindNeverFails(c, next, depth + 1, fetches + 1);
        FindViaNeverFails(c, obj, refs[1..], depth, Find(c, next, depth + 1, fetches + 1).fetches);
      }
    }
  }

  lemma {:induction false} FindComplete(c: Search, obj: Object, depth: int, fetches: nat, p: seq<OwnerRef>)
    requires Permutes(c.order) && Fetchable(c.cluster, c.searchFor, obj, Left(c, depth) + 1)
    requires IsDirect(c.cluster, c.searchFor, obj, p) && |p| <= Left(c, depth) + 1 && Last(p).name != ""
    ensures Finds(Find(c, obj, depth, fetches))
    decreases Left(c, depth), 1, 0
  {
    if |p| > 1 {
      OrderKeepsMembers(c.order, fetches, obj.owners);
      FindViaComplete(c, obj, c.order(fetches, obj.owners), depth, fetches, p);
    }
  }

  lemma {:induction false} FindViaComplete(
      c: Search, obj: Object, refs: seq<OwnerRef>, depth: int, fetches: nat, p: seq<OwnerRef>)
    requires Permutes(c.order) && Fetchable(c.cluster, c.searchFor, obj, Left(c, depth) + 1)
    requires IsDirect(c.cluster, c.searchFor, obj, p) && 1 < |p| <= Left(c, depth) + 1 && Last(p).name != ""
    requires p[0] in refs && forall o | o in refs :: o in obj.owners
    ensures Finds(FindVia(c, obj, refs, depth, fetches))
    decreases Left(c, depth), 0, |refs|
  {
    var next := Owner(c.cluster, obj, refs[0]).value;
    var r := Find(c, next, depth + 1, fetches + 1);
    FindNeverFails(c, next, depth + 1, fetches + 1);
    if refs[0] == p[0] {
      FindComplete(c, next, depth + 1, fetches + 1, p[1..]);
    } else if !Finds(r) {
      FindViaComplete(c, obj, refs[1..], depth, r.fetches, p);
    }
  }

  /** The longest path a search follows: `MaxDepth`, and never less than one reference. */
  function Limit(c: Search): nat {
    if c.maxDepth <= 1 then 1 else c.maxDepth
  }

  /** A path within reach that ends in the searched group and kind. */
  ghost predicate Reaches(c: Search, obj: Object, p: seq<OwnerRef>) {
    IsPath(c.cluster, obj, p) && |p| <= Limit(c) && IsA(Last(p), c.searchFor)
  }

  ghost predicate NamesGiven(c: Search, obj: Object) {
    forall p | Reaches(c, obj, p) :: Last(p).name != ""
  }

  /**
    If all visited owners can be fetched and the matches have names, the search finds a name
    exactly when some path within reach ends in the group and kind, and it is the name of one.
   */
  lemma {:induction false} SearchCorrect(c: Search, obj: Object)
    requires Permutes(c.order) && Fetchable(c.cluster, c.searchFor, obj, Limit(c)) && NamesGiven(c, obj)
    ensures Find(c, obj, 1, 0).result.Ok?
    ensures Finds(Find(c, obj, 1, 0)) <==> exists p :: Reaches(c, obj, p)
    ensures Finds(Find(c, obj, 1, 0)) ==>
      exists p :: Reaches(c, obj, p) && Find(c, obj, 1, 0).result == Ok(Last(p).name)
  {
    FindNeverFails(c, obj, 1, 0);
    if Finds(Find(c, obj, 1, 0)) {
      var p := FindSound(c, obj, 1, 0);
      DirectIsPath(c.cluster, c.searchFor, obj, p);
      assert Reaches(c, obj, p);
    }
    forall p | Reaches(c, obj, p)
      ensures Finds(Find(c, obj, 1, 0))
    {
      var q := Shortcut(c.cluster, c.searchFor, obj, p);
      DirectIsPath(c.cluster, c.searchFor, obj, q);
      assert Reaches(c, obj, q);
      FindComplete(c, obj, 1, 0, q);
    }
  }

  /** Without any assumption on fetches or names: a found name is the name of a reachable match. */
  lemma {:induction false} SearchSound(c: Search, obj: Object)
    requires Permutes(c.order) && Finds(Find(c, obj, 1, 0))
    ensures exists p :: Reaches(c, obj, p) && Find(c, obj, 1, 0).result == Ok(Last(p).name)
  {
    var p := FindSound(c, obj, 1, 0);
    DirectIsPath(c.cluster, c.searchFor, obj, p);
    assert Reaches(c, obj, p);
  }

  /** The heuristic order is only an optimisation. */
  lemma {:induction false} OrderIsOnlyHeuristic(c: Search, order: Order, obj: Object)
    requires Permutes(c.order) && Permutes(order) && Fetchable(c.cluster, c.searchFor, obj, Limit(c))
    ensures Finds(Find(c, obj, 1, 0)) <==> Finds(Find(c.(order := order), obj, 1, 0))
  {
    var d := c.(order := order);
    if Finds(Find(c, obj, 1, 0)) {
      var p := FindSound(c, obj, 1, 0);
      FindComplete(d, obj, 1, 0, p);
    }
    if Finds(Find(d, obj, 1, 0)) {
      var p := FindSound(d, obj, 1, 0);
      FindComplete(c, obj, 1, 0, p);
    }
  }

  // ---------- the first candidate decides, and what cannot be read ----------

  /** Candidates are followed in turn; the first that yields a name or an error decides. */
  lemma {:induction false} CandidatesInTurn(
      c: Search, obj: Object, a: seq<OwnerRef>, b: seq<OwnerRef>, depth: int, fetches: nat)
    ensures var first := FindVia(c, obj, a, depth, fetches);
      FindVia(c, obj, a + b, depth, fetches) ==
      if first.result == Ok("") then FindVia(c, obj, b, depth, first.fetches) else first
    decreases |a|
  {
    if a == [] {
      assert a + b == b;
    } else {
      assert (a + b)[0] == a[0] && (a + b)[1..] == a[1..] + b;
      if depth >= c.maxDepth {
        CandidatesInTurn(c, obj, a[1..], b, depth, fetches);
      } else {
        var next := Owner(c.cluster, obj, a[0]);
        if next.Some? {
          var r := Find(c, next.value, depth + 1, fetches + 1);
          if r.result == Ok("") {
            CandidatesInTurn(c, obj, a[1..], b, depth, r.fetches);
          }
        }
      }
    }
  }

  /** Whoever is met first: the candidates before yield nothing, and this one cannot be read. */
  lemma {:induction false} FailsAtFirstUnreadable(
      c: Search, obj: Object, a: seq<OwnerRef>, o: OwnerRef, b: seq<OwnerRef>, depth: int, fetches: nat)
    requires FirstOwner(obj.owners, c.searchFor).None? && depth < c.maxDepth
    requires c.order(fetches, obj.owners) == a + [o] + b && FindVia(c, obj, a, depth, fetches).result == Ok("")
    requires c.cluster(ObjectKey(o.apiVersion, o.kind, obj.namespace, o.name)).None?
    ensures Find(c, obj, depth, fetches).result == Err(FetchFailed)
  {
    assert a + [o] + b == a + ([o] + b);
    CandidatesInTurn(c, obj, a, [o] + b, depth, fetches);
  }

  /** An error means that an owner on some path within reach cannot be read. */
  lemma {:induction false} ErrorMeansUnreadable(c: Search, obj: Object, depth: int, fetches: nat)
    requires Permutes(c.order) && Find(c, obj, depth, fetches).result.Err?
    ensures Find(c, obj, depth, fetches).result == Err(FetchFailed)
    ensures !Fetchable(c.cluster, c.searchFor, obj, Left(c, depth) + 1)
    decreases Left(c, depth), 1, 0
  {
    if Fetchable(c.cluster, c.searchFor, obj, Left(c, depth) + 1) {
      FindNeverFails(c, obj, depth, fetches);
    }
    OnlyFetchesFail(c, obj, c.order(fetches, obj.owners), depth, fetches);
  }

  lemma {:induction false} OnlyFetchesFail(c: Search, obj: Object, refs: seq<OwnerRef>, depth: int, fetches: nat)
    ensures FindVia(c, obj, refs, depth, fetches).result.Err? ==>
      FindVia(c, obj, refs, depth, fetches).result == Err(FetchFailed)
    decreases Left(c, depth), |refs|
  {
    if refs != [] {
      if depth >= c.maxDepth {
        OnlyFetchesFail(c, obj, refs[1..], depth, fetches);
      } else {
        var next := Owner(c.cluster, obj, refs[0]);
        if next.Some? {
          OnlyFetchesFail(c, next.value, c.order(fetches + 1, next.value.owners), depth + 1, fetches + 1);
          var r := Find(c, next.value, depth + 1, fetches + 1);
          OnlyFetchesFail(c, obj, refs[1..], depth, r.fetches);
        }
      }
    }
  }

  /** `b` shows everything that `a` shows, and perhaps more. */
  ghost predicate Extends(a: Cluster, b: Cluster) {
    forall k :: a(k).Some? ==> b(k) == a(k)
  }

  /** An answer without an error does not depend on what could not be read. */
  lemma {:induction false} AnswerIgnoresUnreadable(c: Search, b: Cluster, obj: Object, depth: int, fetches: nat)
    requires Extends(c.cluster, b) && Find(c, obj, depth, fetches).result.Ok?
    ensures Find(c.(cluster := b), obj, depth, fetches) == Find(c, obj, depth, fetches)
    decreases Left(c, depth), 1, 0
  {
    if FirstOwner(obj.owners, c.searchFor).None? {
      AnswerIgnoresUnreadableVia(c, b, obj, c.order(fetches, obj.owners), depth, fetches);
    }
  }

  lemma {:induction false} AnswerIgnoresUnreadableVia(
      c: Search, b: Cluster, obj: Object, refs: seq<OwnerRef>, depth: int, fetches: nat)
    requires Extends(c.cluster, b) && FindVia(c, obj, refs, depth, fetches).result.Ok?
    ensures FindVia(c.(cluster := b), obj, refs, depth, fetches) == FindVia(c, obj, refs, depth, fetches)
    decreases Left(c, depth), 0, |refs|
  {
    if refs != [] {
      if depth >= c.maxDepth {
        AnswerIgnoresUnreadableVia(c, b, obj, refs[1..], depth, fetches);
      } else {
        var next := Owner(c.cluster, obj, refs[0]).value;
        AnswerIgnoresUnreadable(c, b, next, depth + 1, fetches + 1);
        var r := Find(c, next, depth + 1, fetches + 1);
        if !Finds(r) {
          AnswerIgnoresUnreadableVia(c, b, obj, refs[1..], depth, r.fetches);
        }
      }
    }
  }

  // ---------- how many fetches ----------

  function Pow(b: nat, k: nat): nat {
    if k == 0 then 1 else b * Pow(b, k - 1)
  }

  /** b + b^2 + ... + b^k */
  function PowerSum(b: nat, k: nat): nat {
    if k == 0 then 0 else PowerSum(b, k - 1) + Pow(b, k)
  }

  lemma {:induction false} PowerSumUnfolds(b: nat, k: nat)
    requires k > 0
    ensures PowerSum(b, k) == b * (1 + PowerSum(b, k - 1))
  {
    if k == 1 {
      assert Pow(b, 0) == 1 && Pow(b, 1) == b * Pow(b, 0);
    } else {
      PowerSumUnfolds(b, k - 1);
      var x, y := PowerSum(b, k - 2), Pow(b, k - 1);
      assert PowerSum(b, k - 1) == x + y;
      assert b * (1 + (x + y)) == b * (1 + x) + b * y;
    }
  }

  ghost predicate AtMostOwners(c: Search, b: nat) {
    forall k :: c.cluster(k).Some? ==> |c.cluster(k).value.owners| <= b
  }

  lemma {:induction false} AtMostTimes(m: nat, b: nat, each: nat)
    requires m <= b
    ensures m * each <= b * each
  {
  }

  lemma {:induction false} FetchBound(c: Search, obj: Object, b: nat, depth: int, fetches: nat)
    requires Permutes(c.order) && AtMostOwners(c, b) && |obj.owners| <= b
    ensures Find(c, obj, depth, fetches).fetches <= fetches + PowerSum(b, Left(c, depth))
    decreases Left(c, depth), 1, 0
  {
    if FirstOwner(obj.owners, c.searchFor).None? {
      var refs := c.order(fetches, obj.owners);
      OrderKeepsMembers(c.order, fetches, obj.owners);
      FetchBoundVia(c, obj, refs, b, depth, fetches);
      if Left(c, depth) > 0 {
        PowerSumUnfolds(b, Left(c, depth));
        hide Find, FindVia, Owner;
        AtMostTimes(|refs|, b, 1 + PowerSum(b, Left(c, depth) - 1));
      }
    }
  }

  lemma {:induction false} FetchBoundVia(
      c: Search, obj: Object, refs: seq<OwnerRef>, b: nat, depth: int, fetches: nat)
    requires Permutes(c.order) && AtMostOwners(c, b)
    ensures FindVia(c, obj, refs, depth, fetches).fetches <=
      fetches + (if depth >= c.maxDepth then 0 else |refs| * (1 + PowerSum(b, Left(c, depth) - 1)))
    decreases Left(c, depth), 0, |refs|
  {
    if refs != [] {
      if depth >= c.maxDepth {
        FetchBoundVia(c, obj, refs[1..], b, depth, fetches);
      } else {
        var each := 1 + PowerSum(b, Left(c, depth) - 1);
        assert |refs| * each == each + |refs[1..]| * each;
        var next := Owner(c.cluster, obj, refs[0]);
        if next.Some? {
          FetchBound(c, next.value, b, depth + 1, fetches + 1);
          var r := Find(c, next.value, depth + 1, fetches + 1);
          FetchBoundVia(c, obj, refs[1..], b, depth, r.fetches);
        }
      }
    }
  }

  /** A whole search fetches at most b + b^2 + ... + b^(MaxDepth - 1) objects. */
  lemma {:induction false} SearchFetches(c: Search, obj: Object, b: nat)
    requires Permutes(c.order) && AtMostOwners(c, b) && |obj.owners| <= b
    ensures Find(c, obj, 1, 0).fetches <= if c.maxDepth <= 1 then 0 else PowerSum(b, c.maxDepth - 1)
  {
    FetchBound(c, obj, b, 1, 0);
  }

  /** Every object has exactly `b` owners, all can be fetched, and none matches. */
  ghost predicate Hopeless(c: Search, b: nat) {
    forall k :: c.cluster(k).Some? && Barren(c, c.cluster(k).value, b)
  }

  ghost predicate Barren(c: Search, obj: Object, b: nat) {
    |obj.owners| == b && FirstOwner(obj.owners, c.searchFor).None?
  }

  /** The bound is attained, a single object that owns itself `b` times being enough. */
  lemma {:induction false} FetchBoundIsTight(c: Search, obj: Object, b: nat, depth: int, fetches: nat)
    requires Permutes(c.order) && Hopeless(c, b) && Barren(c, obj, b)
    ensures Find(c, obj, depth, fetches) == Found(Ok(""), fetches + PowerSum(b, Left(c, depth)))
    decreases Left(c, depth), 1, 0
  {
    OrderKeepsMembers(c.order, fetches, obj.owners);
    FetchesEach(c, obj, c.order(fetches, obj.owners), b, depth, fetches);
    if Left(c, depth) > 0 {
      PowerSumUnfolds(b, Left(c, depth));
    }
  }

  lemma {:induction false} FetchesEach(
      c: Search, obj: Object, refs: seq<OwnerRef>, b: nat, depth: int, fetches: nat)
    requires Permutes(c.order) && Hopeless(c, b)
    ensures FindVia(c, obj, refs, depth, fetches) == Found(Ok(""),
      fetches + (if depth >= c.maxDepth then 0 else |refs| * (1 + PowerSum(b, Left(c, depth) - 1))))
    decreases Left(c, depth), 0, |refs|
  {
    if refs != [] {
      if depth >= c.maxDepth {
        FetchesEach(c, obj, refs[1..], b, depth, fetches);
      } else {
        var each := 1 + PowerSum(b, Left(c, depth) - 1);
        assert |refs| * each == each + |refs[1..]| * each;
        var next := Owner(c.cluster, obj, refs[0]).value;
        FetchBoundIsTight(c, next, b, depth + 1, fetches + 1);
        FetchesEach(c, obj, refs[1..], b, depth, fetches + each);
      }
    }
  }

  // ---------- the chain walk ----------

  /** Follows the first owner of each kind in turn; the last one's name is the result. */
  function Walk(cluster: Cluster, obj: Object, chain: seq<GroupKind>): Result<string, SearchError>
    decreases |chain|
  {
    if chain == [] then Err(NotFound)
    else
      var o := FirstOwner(obj.owners, chain[0]);
      if o.None? then Err(ChainBroken)
      else if |chain| == 1 then Ok(o.value.name)
      else if Owner(cluster, obj, o.value).None? then Err(FetchFailed)
      else Walk(cluster, Owner(cluster, obj, o.value).value, chain[1..])
  }

  /**
    `p` takes, from `obj` on, the first owner of each kind of the chain in turn, and every owner
    but the last can be read.
   */
  ghost predicate Follows(cluster: Cluster, obj: Object, chain: seq<GroupKind>, p: seq<OwnerRef>)
    decreases |p|
  {
    p != [] ==>
      && |p| <= |chain| && FirstOwner(obj.owners, chain[0]) == Some(p[0])
      && (|p| > 1 ==>
            var next := cluster(ObjectKey(p[0].apiVersion, p[0].kind, obj.namespace, p[0].name));
            next.Some? && Follows(cluster, next.value, chain[1..], p[1..]))
  }

  /** The object that a followed path has led to, if it can be read. */
  ghost function EndOf(cluster: Cluster, obj: Object, p: seq<OwnerRef>): Option<Object>
    decreases |p|
  {
    if p == [] then Some(obj)
    else
      var next := cluster(ObjectKey(p[0].apiVersion, p[0].kind, obj.namespace, p[0].name));
      if next.None? then None else EndOf(cluster, next.value, p[1..])
  }

  /**
    The walk ends in one of four ways: with the name of the last owner once the whole chain is
    followed; for an empty chain with nothing; at an object without an owner of the next kind; or
    at an owner that is not the last and cannot be read.
   */
  lemma {:induction false} WalkFollows(cluster: Cluster, obj: Object, chain: seq<GroupKind>)
    returns (p: seq<OwnerRef>)
    ensures Follows(cluster, obj, chain, p) && |p| <= |chain|
    ensures match Walk(cluster, obj, chain)
      case Ok(name) => |p| == |chain| > 0 && name == Last(p).name
      case Err(NotFound) => chain == []
      case Err(ChainBroken) =>
        && |p| < |chain| && EndOf(cluster, obj, p).Some?
        && FirstOwner(EndOf(cluster, obj, p).value.owners, chain[|p|]).None?
      case Err(FetchFailed) => 0 < |p| < |chain| && EndOf(cluster, obj, p).None?
    decreases |chain|
  {
    p := [];
    if chain != [] && FirstOwner(obj.owners, chain[0]).Some? {
      var o := FirstOwner(obj.owners, chain[0]).value;
      var next := Owner(cluster, obj, o);
      if |chain| == 1 || next.None? {
        p := [o];
      } else {
        var tail := WalkFollows(cluster, next.value, chain[1..]);
        p := [o] + tail;
        assert p[1..] == tail;
      }
    }
  }

  /** A path that follows the chain is an owner path, and each owner is of the kind of its step. */
  lemma {:induction false} FollowsIsPath(cluster: Cluster, obj: Object, chain: seq<GroupKind>, p: seq<OwnerRef>)
    requires p != [] && Follows(cluster, obj, chain, p)
    ensures |p| <= |chain| && IsPath(cluster, obj, p) && forall i | 0 <= i < |p| :: IsA(p[i], chain[i])
    decreases |p|
  {
    FirstOwnerSpec(obj.owners, chain[0]);
    if |p| > 1 {
      var next := Owner(cluster, obj, p[0]).value;
      FollowsIsPath(cluster, next, chain[1..], p[1..]);
      assert forall i | 1 <= i < |p| :: p[i] == p[1..][i - 1] && chain[i] == chain[1..][i - 1];
    }
  }

  /** A successful walk is an owner path of the chain's length, through the chain's kinds. */
  lemma {:induction false} WalkIsPath(cluster: Cluster, obj: Object, chain: seq<GroupKind>) returns (p: seq<OwnerRef>)
    requires Walk(cluster, obj, chain).Ok?
    ensures |p| == |chain| && IsPath(cluster, obj, p) && forall i | 0 <= i < |p| :: IsA(p[i], chain[i])
    ensures Walk(cluster, obj, chain) == Ok(Last(p).name)
  {
    p := WalkFollows(cluster, obj, chain);
    FollowsIsPath(cluster, obj, chain, p);
  }

  /**
    Where a chain that ends in the searched kind leads somewhere within reach, the search finds
    something too; and both find the same if all matches within reach carry one name.
   */
  lemma {:induction false} SearchAgreesWithChain(c: Search, obj: Object, chain: seq<GroupKind>)
    requires Permutes(c.order) && Fetchable(c.cluster, c.searchFor, obj, Limit(c)) && NamesGiven(c, obj)
    requires Walk(c.cluster, obj, chain).Ok? && |chain| <= Limit(c) && chain[|chain| - 1] == c.searchFor
    ensures Finds(Find(c, obj, 1, 0))
    ensures (forall p, q | Reaches(c, obj, p) && Reaches(c, obj, q) :: Last(p).name == Last(q).name) ==>
      Find(c, obj, 1, 0).result == Walk(c.cluster, obj, chain)
  {
    var p := WalkIsPath(c.cluster, obj, chain);
    assert Reaches(c, obj, p);
    SearchCorrect(c, obj);
  }
}
