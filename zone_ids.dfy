/**
 * The identifier grammar of the zone-rules registry (ZoneRulesGroup.java:78-82):
 * group and version IDs match `[A-Za-z0-9._-]+`, region IDs match
 * `[A-Za-z0-9%@~/+._-]+`, and a provider lists its data as `region#version`.
 * Neither character class holds `#`, so the full-match regular expression
 * splits an ID at its only `#`.
 */
module ZoneIds {
  import opened Results

  /** The class `[A-Za-z0-9._-]`, used for group IDs and version IDs. */
  predicate IsPlainChar(c: char) {
    ('A' <= c <= 'Z') || ('a' <= c <= 'z') || ('0' <= c <= '9') || c == '.' || c == '_' || c == '-'
  }

  /** The class `[A-Za-z0-9%@~/+._-]`, used for region IDs. */
  predicate IsRegionChar(c: char) {
    IsPlainChar(c) || c == '%' || c == '@' || c == '~' || c == '/' || c == '+'
  }

  /** A full match of `[A-Za-z0-9._-]+`: a valid group ID or version ID. */
  predicate IsPlainId(s: string) {
    |s| > 0 && forall i :: 0 <= i < |s| ==> IsPlainChar(s[i])
  }

  /** A full match of `[A-Za-z0-9%@~/+._-]+`: a valid region ID. */
  predicate IsRegionId(s: string) {
    |s| > 0 && forall i :: 0 <= i < |s| ==> IsRegionChar(s[i])
  }

  /** Every group or version ID is a region ID, and none holds a '#' or a ':'. */
  lemma IdsHaveNoSeparators(s: string)
    ensures IsPlainId(s) ==> IsRegionId(s)
    ensures IsRegionId(s) ==> forall i :: 0 <= i < |s| ==> s[i] != '#' && s[i] != ':'
  {
  }

  /** The `region#version` form of a binding. */
  function JoinRegionVersion(regionID: string, versionID: string): string {
    regionID + "#" + versionID
  }

  /** Whether `id` fully matches `([A-Za-z0-9%@~/+._-]+)#([A-Za-z0-9._-]+)`. */
  ghost predicate MatchesRegionVersion(id: string) {
    exists regionID, versionID :: IsRegionId(regionID) && IsPlainId(versionID) && id == JoinRegionVersion(regionID, versionID)
  }

  /** The position of the first `c` in `s`. */
  function IndexOf(s: string, c: char): (r: Option<nat>)
    ensures r.Some? ==> r.value < |s| && s[r.value] == c && forall j :: 0 <= j < r.value ==> s[j] != c
    ensures r.None? ==> forall j :: 0 <= j < |s| ==> s[j] != c
  {
    if s == [] then None
    else if s[0] == c then Some(0)
    else match IndexOf(s[1..], c)
      case None => None
      case Some(i) => Some(i + 1)
  }

  /**
   * Matching `id` against the region#version pattern: the two capture groups
   * when the whole ID matches, `None` when it does not.
   */
  function ParseRegionVersion(id: string): (r: Option<(string, string)>)
    ensures r.Some? ==> IsRegionId(r.value.0) && IsPlainId(r.value.1)
    ensures r.Some? ==> id == JoinRegionVersion(r.value.0, r.value.1)
  {
    match IndexOf(id, '#')
    case None => None
    case Some(i) =>
      var regionID, versionID := id[..i], id[i + 1..];
      if IsRegionId(regionID) && IsPlainId(versionID) then
        assert id == regionID + "#" + versionID;
        Some((regionID, versionID))
      else None
  }

  /** Splitting a joined ID gives back its region and version. */
  lemma ParseJoin(regionID: string, versionID: string)
    requires IsRegionId(regionID) && IsPlainId(versionID)
    ensures ParseRegionVersion(JoinRegionVersion(regionID, versionID)) == Some((regionID, versionID))
  {
    var id := JoinRegionVersion(regionID, versionID);
    assert id[|regionID|] == '#';
    assert forall j :: 0 <= j < |regionID| ==> id[j] == regionID[j] && id[j] != '#';
    assert IndexOf(id, '#') == Some(|regionID|);
    assert id[..|regionID|] == regionID && id[|regionID| + 1..] == versionID;
  }

  /** The parser accepts exactly the IDs the regular expression matches. */
  lemma ParseMatchesPattern(id: string)
    ensures ParseRegionVersion(id).Some? <==> MatchesRegionVersion(id)
  {
    if MatchesRegionVersion(id) {
      var regionID, versionID :| IsRegionId(regionID) && IsPlainId(versionID) && id == JoinRegionVersion(regionID, versionID);
      ParseJoin(regionID, versionID);
    }
  }

  /** Different bindings have different region#version IDs. */
  lemma JoinInjective(r1: string, v1: string, r2: string, v2: string)
    requires IsRegionId(r1) && IsPlainId(v1) && IsRegionId(r2) && IsPlainId(v2)
    requires JoinRegionVersion(r1, v1) == JoinRegionVersion(r2, v2)
    ensures r1 == r2 && v1 == v2
  {
    ParseJoin(r1, v1);
    ParseJoin(r2, v2);
  }

  /** A TZDB-style ID splits into its region and its version. */
  lemma ParseExample()
    ensures ParseRegionVersion("Europe/London#2009a") == Some(("Europe/London", "2009a"))
  {
    assert IsRegionId("Europe/London") && IsPlainId("2009a");
    assert JoinRegionVersion("Europe/London", "2009a") == "Europe/London#2009a";
    ParseJoin("Europe/London", "2009a");
  }
}
