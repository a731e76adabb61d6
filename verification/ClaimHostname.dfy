/** The hostname of a claim, pinned in an annotation by the first allocation attempt. */
module ClaimHostname {
  import opened Outcomes

  predicate HasSuffix(s: string, t: string) {
    |t| <= |s| && s[|s| - |t|..] == t
  }

  lemma {:induction false} HasSuffixIff(s: string, t: string)
    ensures HasSuffix(s, t) <==> exists p :: s == p + t
  {
    if HasSuffix(s, t) {
      assert s == s[..|s| - |t|] + t;
    }
    forall p | s == p + t
      ensures HasSuffix(s, t)
    {
      assert s[|s| - |t|..] == t;
    }
  }

  /**
    The annotation wins; without a DNS zone the claim's own name is used; otherwise the name
    that the owner search resolved, if it did, under the zone.
   */
  function HostnameOf(annotation: string, zone: string, claimName: string, resolved: Option<string>): Option<string> {
    if annotation != "" then Some(annotation)
    else if zone == "" then Some(claimName)
    else if resolved.None? then None
    else Some(resolved.value + "." + zone)
  }

  /** Only an annotation that was there before can fail the suffix check. */
  lemma {:induction false} SuffixFailsIff(annotation: string, zone: string, claimName: string, resolved: Option<string>)
    ensures (exists h :: HostnameOf(annotation, zone, claimName, resolved) == Some(h) && !HasSuffix(h, zone))
      <==> annotation != "" && !HasSuffix(annotation, zone)
  {
    if annotation == "" && zone != "" && resolved.Some? {
      var h := resolved.value + "." + zone;
      assert h[|h| - |zone|..] == zone;
    }
    if annotation != "" {
      assert HostnameOf(annotation, zone, claimName, resolved) == Some(annotation);
    }
  }

  /** A pinned hostname is used ever after, whatever the owners or the zone become. */
  lemma {:induction false} PinnedHostname(annotation: string, zone: string, claimName: string, resolved: Option<string>,
                       zone': string, resolved': Option<string>)
    requires HostnameOf(annotation, zone, claimName, resolved).Some? && claimName != ""
    ensures var h := HostnameOf(annotation, zone, claimName, resolved).value;
      h != "" && HostnameOf(h, zone', claimName, resolved') == Some(h)
  {
    if annotation == "" && zone != "" {
      var h := resolved.value + "." + zone;
      assert |h| >= 1;
    }
  }

  // ---------- which hostname a claim gets ----------

  /** In one zone, two claims that are new get one hostname only if their resolved names are equal. */
  lemma {:induction false} HostnamesDiffer(
      zone: string, claimName: string, resolved: Option<string>, claimName': string, resolved': Option<string>)
    requires HostnameOf("", zone, claimName, resolved).Some?
    ensures HostnameOf("", zone, claimName, resolved) == HostnameOf("", zone, claimName', resolved') <==>
      if zone == "" then claimName == claimName' else resolved == resolved'
  {
    if zone != "" && resolved.Some? && resolved'.Some? {
      var m, n := resolved.value, resolved'.value;
      if m + "." + zone == n + "." + zone {
        assert |m| == |n|;
        assert m == (m + "." + zone)[..|m|] && n == (n + "." + zone)[..|n|];
      }
    }
  }
}
