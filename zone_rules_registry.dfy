/**
 * The time-zone rules registry (ZoneRulesGroup.java): groups of rules, each
 * known by a group ID, each holding for every region ID the versions of the
 * rules registered for it and the provider that supplies them.
 *
 * The Java class keeps two static tables, the groups by ID and the set of
 * parsable IDs; here they are the fields of `ZoneRulesDirectory`. The rules a
 * provider hands out and the check that rules are valid for a date-time are
 * code outside the registry: they are function parameters of the queries that
 * use them.
 */
module ZoneRulesRegistry {
  import opened Results
  import opened LexOrder
  import opened ZoneIds

  /** The group whose IDs may also be written without the group prefix. */
  const TZDB: string := "TZDB"

  /** A rules data provider: the group it belongs to and the `region#version` IDs it supplies. */
  class Provider {
    const groupID: string
    const ids: set<string>

    constructor (groupID: string, ids: set<string>)
      ensures this.groupID == groupID && this.ids == ids
    {
      this.groupID := groupID;
      this.ids := ids;
    }
  }

  /** The `CalendricalException`s the registry raises, by cause. */
  datatype ZoneError =
    | InvalidGroupID(groupID: string)
    | InvalidRegionVersionID(id: string)
    | AlreadyRegistered(groupID: string, regionID: string, versionID: string)
    | UnknownGroup(groupID: string)
    | NoDataRegistered(groupID: string)
    | UnknownRegion(groupID: string, regionID: string)
    | UnknownVersion(groupID: string, regionID: string, versionID: string)
    | InvalidForDateTime(groupID: string, regionID: string, versionID: string)
    | NoValidRules(groupID: string, regionID: string)

  /** The versions of one region, each with its provider (a `TreeMap`, ordered by `Less`). */
  type VersionMap = map<string, Provider>
  /** The regions of one group. */
  type RegionMap = map<string, VersionMap>

  function VersionsOf(regions: RegionMap, regionID: string): VersionMap {
    if regionID in regions then regions[regionID] else map[]
  }

  /** `regionID#versionID` is registered. */
  predicate IsRegistered(regions: RegionMap, regionID: string, versionID: string) {
    regionID in regions && versionID in regions[regionID]
  }

  /**
   * The shape the registry keeps: every region ID and version ID matches its
   * pattern, and no region holds an empty set of versions.
   */
  ghost predicate WellFormed(regions: RegionMap) {
    forall regionID | regionID in regions ::
      IsRegionId(regionID) && regions[regionID] != map[] &&
      forall versionID | versionID in regions[regionID] :: IsPlainId(versionID)
  }

  /** Every registered provider belongs to group `groupID` and supplies the ID it is registered under. */
  ghost predicate Provenance(regions: RegionMap, groupID: string) {
    forall regionID: string, versionID: string | IsRegistered(regions, regionID, versionID) ::
      regions[regionID][versionID].groupID == groupID &&
      JoinRegionVersion(regionID, versionID) in regions[regionID][versionID].ids
  }

  //---------------------------------------------------------------------------
  // Registration, as a function of the regions before it

  /** The `(region, version)` pairs of the IDs that parse. */
  ghost function Splits(ids: set<string>): set<(string, string)> {
    set id | id in ids && ParseRegionVersion(id).Some? :: ParseRegionVersion(id).value
  }

  /** Every ID parses and none is registered yet: the provider is accepted. */
  ghost predicate Acceptable(regions: RegionMap, ids: set<string>) {
    forall id | id in ids ::
      ParseRegionVersion(id).Some? &&
      !IsRegistered(regions, ParseRegionVersion(id).value.0, ParseRegionVersion(id).value.1)
  }

  /** `e` is a reason some ID of `ids` gives for refusing the provider. */
  ghost predicate Rejects(regions: RegionMap, groupID: string, ids: set<string>, e: ZoneError) {
    exists id | id in ids ::
      match ParseRegionVersion(id)
      case None => e == InvalidRegionVersionID(id)
      case Some((regionID, versionID)) =>
        IsRegistered(regions, regionID, versionID) && e == AlreadyRegistered(groupID, regionID, versionID)
  }

  /** `putIfAbsent` of a one-entry map, or `put` into the region's existing map. */
  function PutVersion(regions: RegionMap, split: (string, string), provider: Provider): (after: RegionMap)
    ensures after.Keys == regions.Keys + {split.0}
    ensures after[split.0].Keys == VersionsOf(regions, split.0).Keys + {split.1}
    ensures after[split.0][split.1] == provider
    ensures forall versionID :: versionID in VersionsOf(regions, split.0) && versionID != split.1 ==>
      after[split.0][versionID] == VersionsOf(regions, split.0)[versionID]
    ensures forall regionID :: regionID in regions && regionID != split.0 ==> after[regionID] == regions[regionID]
  {
    regions[split.0 := VersionsOf(regions, split.0)[split.1 := provider]]
  }

  /** The versions `splits` pairs with `regionID`. */
  ghost function NewVersions(splits: set<(string, string)>, regionID: string): set<string> {
    set s | s in splits && s.0 == regionID :: s.1
  }

  /** The regions `splits` names. */
  ghost function NewRegions(splits: set<(string, string)>): set<string> {
    set s | s in splits :: s.0
  }

  /** The regions once every pair of `splits` is bound to `provider`. */
  ghost function WithBindings(regions: RegionMap, splits: set<(string, string)>, provider: Provider): RegionMap {
    map regionID | regionID in regions.Keys + NewRegions(splits) ::
      VersionsOf(regions, regionID) + (map versionID | versionID in NewVersions(splits, regionID) :: provider)
  }

  /** The IDs one `region#version` ID makes parsable. */
  function IdForms(groupID: string, id: string, regionID: string): (forms: set<string>)
    ensures groupID + ":" + id in forms && groupID + ":" + regionID in forms
    ensures forms <= {id, regionID, groupID + ":" + id, groupID + ":" + regionID}
    ensures groupID == TZDB ==> id in forms && regionID in forms
    ensures groupID != TZDB ==> forms == {groupID + ":" + id, groupID + ":" + regionID}
  {
    (if groupID == TZDB then {id, regionID} else {}) + {groupID + ":" + id, groupID + ":" + regionID}
  }

  /**
   * For a valid group and a `region#version` ID, the bare ID and the bare
   * region are parsable exactly when the group is TZDB.
   */
  lemma BareFormsOnlyForTzdb(groupID: string, id: string, regionID: string, versionID: string)
    requires IsPlainId(groupID)
    requires ParseRegionVersion(id) == Some((regionID, versionID))
    ensures id in IdForms(groupID, id, regionID) <==> groupID == TZDB
    ensures regionID in IdForms(groupID, id, regionID) <==> groupID == TZDB
  {
    var prefixed := groupID + ":" + regionID;
    assert id[|regionID|] == '#';
    if |id| == |prefixed| {
      IdsHaveNoSeparators(groupID);
      IdsHaveNoSeparators(regionID);
      assert forall i :: 0 <= i < |prefixed| ==> prefixed[i] != '#';
    }
    assert id != prefixed;
  }

  ghost function AllIdForms(groupID: string, ids: set<string>): set<string> {
    set id, form | id in ids && ParseRegionVersion(id).Some? &&
      form in IdForms(groupID, id, ParseRegionVersion(id).value.0) :: form
  }

  lemma WithNoBindings(regions: RegionMap, provider: Provider)
    ensures WithBindings(regions, {}, provider) == regions
  {
    var w := WithBindings(regions, {}, provider);
    assert w.Keys == regions.Keys;
    forall regionID | regionID in regions
      ensures w[regionID] == regions[regionID]
    {
      assert NewVersions({}, regionID) == {};
    }
  }

  lemma NewVersionsStep(splits: set<(string, string)>, split: (string, string), regionID: string)
    ensures NewRegions(splits + {split}) == NewRegions(splits) + {split.0}
    ensures NewVersions(splits + {split}, regionID)
         == if regionID == split.0 then NewVersions(splits, regionID) + {split.1} else NewVersions(splits, regionID)
  {
  }

  lemma UpdateAfterUnion(versions: VersionMap, added: VersionMap, versionID: string, provider: Provider)
    ensures (versions + added)[versionID := provider] == versions + added[versionID := provider]
  {
  }

  lemma WithOneMoreBindingAt(regions: RegionMap, splits: set<(string, string)>, split: (string, string),
                             provider: Provider, regionID: string)
    requires regionID in regions.Keys + NewRegions(splits + {split})
    ensures WithBindings(regions, splits + {split}, provider)[regionID]
         == PutVersion(WithBindings(regions, splits, provider), split, provider)[regionID]
  {
    NewVersionsStep(splits, split, regionID);
    var before := WithBindings(regions, splits, provider);
    var added := map versionID | versionID in NewVersions(splits, regionID) :: provider;
    var added' := map versionID | versionID in NewVersions(splits + {split}, regionID) :: provider;
    if regionID == split.0 {
      assert added' == added[split.1 := provider];
      if regionID !in before {
        assert NewVersions(splits, regionID) == {} by {
          forall s | s in splits
            ensures s.0 != regionID
          {
            assert s.0 in NewRegions(splits);
          }
        }
        assert added == map[];
      }
      assert VersionsOf(before, regionID) == VersionsOf(regions, regionID) + added;
      UpdateAfterUnion(VersionsOf(regions, regionID), added, split.1, provider);
    } else {
      assert added' == added;
      assert regionID in before;
    }
  }

  lemma WithOneMoreBindingKeys(regions: RegionMap, splits: set<(string, string)>, split: (string, string), provider: Provider)
    ensures WithBindings(regions, splits + {split}, provider).Keys
         == PutVersion(WithBindings(regions, splits, provider), split, provider).Keys
  {
    NewVersionsStep(splits, split, split.0);
    assert WithBindings(regions, splits, provider).Keys == regions.Keys + NewRegions(splits);
  }

  /** Binding one more pair is one `PutVersion` more. */
  lemma WithOneMoreBinding(regions: RegionMap, splits: set<(string, string)>, split: (string, string), provider: Provider)
    ensures WithBindings(regions, splits + {split}, provider)
         == PutVersion(WithBindings(regions, splits, provider), split, provider)
  {
    var after: RegionMap := WithBindings(regions, splits + {split}, provider);
    var expected := PutVersion(WithBindings(regions, splits, provider), split, provider);
    WithOneMoreBindingKeys(regions, splits, split, provider);
    forall regionID | regionID in after
      ensures after[regionID] == expected[regionID]
    {
      WithOneMoreBindingAt(regions, splits, split, provider, regionID);
    }
  }

  /** After registration every ID of the provider resolves to the provider. */
  lemma BindsAll(regions: RegionMap, ids: set<string>, provider: Provider)
    ensures forall id | id in ids && ParseRegionVersion(id).Some? ::
      var (regionID, versionID) := ParseRegionVersion(id).value;
      IsRegistered(WithBindings(regions, Splits(ids), provider), regionID, versionID) &&
      WithBindings(regions, Splits(ids), provider)[regionID][versionID] == provider
  {
    var after: RegionMap := WithBindings(regions, Splits(ids), provider);
    forall id | id in ids && ParseRegionVersion(id).Some?
      ensures IsRegistered(after, ParseRegionVersion(id).value.0, ParseRegionVersion(id).value.1)
      ensures after[ParseRegionVersion(id).value.0][ParseRegionVersion(id).value.1] == provider
    {
      var split := ParseRegionVersion(id).value;
      assert split in Splits(ids);
      assert split.0 in NewRegions(Splits(ids));
      assert split.1 in NewVersions(Splits(ids), split.0);
    }
  }

  /** A pair registration adds comes from an ID of the provider, and matches the patterns. */
  lemma FromSplit(ids: set<string>, regionID: string, versionID: string)
    requires versionID in NewVersions(Splits(ids), regionID)
    ensures JoinRegionVersion(regionID, versionID) in ids
    ensures IsRegionId(regionID) && IsPlainId(versionID)
  {
    var split :| split in Splits(ids) && split.0 == regionID && split.1 == versionID;
    var id :| id in ids && ParseRegionVersion(id).Some? && ParseRegionVersion(id).value == split;
  }

  /** An accepted registration keeps every earlier binding as it was. */
  lemma KeepsEarlier(regions: RegionMap, ids: set<string>, provider: Provider)
    requires Acceptable(regions, ids)
    ensures forall regionID: string, versionID: string | IsRegistered(regions, regionID, versionID) ::
      IsRegistered(WithBindings(regions, Splits(ids), provider), regionID, versionID) &&
      WithBindings(regions, Splits(ids), provider)[regionID][versionID] == regions[regionID][versionID]
  {
    var after: RegionMap := WithBindings(regions, Splits(ids), provider);
    forall regionID: string, versionID: string | IsRegistered(regions, regionID, versionID)
      ensures IsRegistered(after, regionID, versionID)
      ensures after[regionID][versionID] == regions[regionID][versionID]
    {
      forall split | split in Splits(ids)
        ensures split != (regionID, versionID)
      {
        var id :| id in ids && ParseRegionVersion(id).Some? && ParseRegionVersion(id).value == split;
      }
      assert versionID !in NewVersions(Splits(ids), regionID);
    }
  }

  /** Registration binds nothing but the earlier bindings and the provider's own IDs. */
  lemma OnlyAdds(regions: RegionMap, ids: set<string>, provider: Provider)
    ensures forall regionID: string, versionID: string | IsRegistered(WithBindings(regions, Splits(ids), provider), regionID, versionID) ::
      IsRegistered(regions, regionID, versionID) || JoinRegionVersion(regionID, versionID) in ids
  {
    var after: RegionMap := WithBindings(regions, Splits(ids), provider);
    forall regionID: string, versionID: string | IsRegistered(after, regionID, versionID) && !IsRegistered(regions, regionID, versionID)
      ensures JoinRegionVersion(regionID, versionID) in ids
    {
      FromSplit(ids, regionID, versionID);
    }
  }

  /** One binding after registration: the provider's, or the earlier one. */
  lemma BindingAfter(regions: RegionMap, provider: Provider, regionID: string, versionID: string)
    requires IsRegistered(WithBindings(regions, Splits(provider.ids), provider), regionID, versionID)
    ensures versionID in NewVersions(Splits(provider.ids), regionID) ==>
      WithBindings(regions, Splits(provider.ids), provider)[regionID][versionID] == provider &&
      JoinRegionVersion(regionID, versionID) in provider.ids && IsPlainId(versionID)
    ensures versionID !in NewVersions(Splits(provider.ids), regionID) ==>
      IsRegistered(regions, regionID, versionID) &&
      WithBindings(regions, Splits(provider.ids), provider)[regionID][versionID] == regions[regionID][versionID]
  {
    if versionID in NewVersions(Splits(provider.ids), regionID) {
      FromSplit(provider.ids, regionID, versionID);
    }
  }

  /** Registering a provider keeps the registry's shape. */
  lemma KeepsWellFormed(regions: RegionMap, provider: Provider)
    requires WellFormed(regions)
    ensures WellFormed(WithBindings(regions, Splits(provider.ids), provider))
  {
    var after: RegionMap := WithBindings(regions, Splits(provider.ids), provider);
    forall regionID | regionID in after
      ensures IsRegionId(regionID) && after[regionID] != map[]
    {
      if regionID !in regions {
        var split :| split in Splits(provider.ids) && split.0 == regionID;
        assert split.1 in NewVersions(Splits(provider.ids), regionID);
        FromSplit(provider.ids, regionID, split.1);
        assert split.1 in after[regionID];
      } else {
        var versionID :| versionID in regions[regionID];
        assert versionID in after[regionID];
      }
    }
    forall regionID: string, versionID: string | IsRegistered(after, regionID, versionID)
      ensures IsPlainId(versionID)
    {
      BindingAfter(regions, provider, regionID, versionID);
    }
  }

  /** Registering a provider of the group keeps every binding's provenance. */
  lemma KeepsProvenance(regions: RegionMap, groupID: string, provider: Provider)
    requires Provenance(regions, groupID)
    requires provider.groupID == groupID
    ensures Provenance(WithBindings(regions, Splits(provider.ids), provider), groupID)
  {
    var after: RegionMap := WithBindings(regions, Splits(provider.ids), provider);
    forall regionID: string, versionID: string | IsRegistered(after, regionID, versionID)
      ensures after[regionID][versionID].groupID == groupID
      ensures JoinRegionVersion(regionID, versionID) in after[regionID][versionID].ids
    {
      BindingAfter(regions, provider, regionID, versionID);
    }
  }

  /** An ID that parses to nothing or to a registered pair refuses the provider, for its own reason. */
  lemma RejectsWith(regions: RegionMap, groupID: string, ids: set<string>, id: string)
    requires id in ids
    ensures ParseRegionVersion(id).None? ==>
      !Acceptable(regions, ids) && Rejects(regions, groupID, ids, InvalidRegionVersionID(id))
    ensures ParseRegionVersion(id).Some? &&
            IsRegistered(regions, ParseRegionVersion(id).value.0, ParseRegionVersion(id).value.1) ==>
      !Acceptable(regions, ids) &&
      Rejects(regions, groupID, ids,
              AlreadyRegistered(groupID, ParseRegionVersion(id).value.0, ParseRegionVersion(id).value.1))
  {
  }

  lemma AcceptableStep(regions: RegionMap, checked: set<string>, id: string)
    requires Acceptable(regions, checked)
    requires ParseRegionVersion(id).Some?
    requires !IsRegistered(regions, ParseRegionVersion(id).value.0, ParseRegionVersion(id).value.1)
    ensures Acceptable(regions, checked + {id})
  {
  }

  lemma SplitsStep(done: set<string>, id: string)
    requires ParseRegionVersion(id).Some?
    ensures Splits(done + {id}) == Splits(done) + {ParseRegionVersion(id).value}
  {
  }

  lemma AllIdFormsStep(groupID: string, done: set<string>, id: string)
    requires ParseRegionVersion(id).Some?
    ensures AllIdForms(groupID, done + {id})
         == AllIdForms(groupID, done) + IdForms(groupID, id, ParseRegionVersion(id).value.0)
  {
    var forms := IdForms(groupID, id, ParseRegionVersion(id).value.0);
    forall form | form in forms
      ensures form in AllIdForms(groupID, done + {id})
    {
    }
  }

  //---------------------------------------------------------------------------
  // A group

  /** One group of rules (a `ZoneRulesGroup`): its ID and its regions. */
  class ZoneRulesGroup {
    const groupID: string
    var regions: RegionMap

    ghost predicate Valid()
      reads this
    {
      IsPlainId(groupID) && WellFormed(regions) && Provenance(regions, groupID)
    }

    /** A group with no regions yet. */
    constructor (groupID: string)
      requires IsPlainId(groupID)
      ensures Valid()
      ensures this.groupID == groupID && regions == map[]
    {
      this.groupID := groupID;
      regions := map[];
    }

    /** The private constructor with its check: the group ID must match `[A-Za-z0-9._-]+`. */
    static method Create(groupID: string) returns (r: Result<ZoneRulesGroup, ZoneError>)
      ensures r.Ok? <==> IsPlainId(groupID)
      ensures r.Ok? ==> fresh(r.value) && r.value.Valid() && r.value.groupID == groupID && r.value.regions == map[]
      ensures r.Err? ==> r.error == InvalidGroupID(groupID)
    {
      if !IsPlainId(groupID) {
        return Err(InvalidGroupID(groupID));
      }
      var group := new ZoneRulesGroup(groupID);
      return Ok(group);
    }

    /**
     * The first loop of `registerProvider0`: parse every ID of the provider and
     * refuse it if it is malformed or already registered; gather the
     * `(region, version)` pairs and the parsable IDs. Nothing changes here.
     */
    method CheckIds(ids: set<string>) returns (r: Result<(set<(string, string)>, set<string>), ZoneError>)
      ensures r.Ok? <==> Acceptable(regions, ids)
      ensures r.Ok? ==> r.value == (Splits(ids), AllIdForms(groupID, ids))
      ensures r.Err? ==> Rejects(regions, groupID, ids, r.error)
    {
      var fullIDs: set<string> := {};
      var splits: set<(string, string)> := {};
      var remaining := ids;
      ghost var checked: set<string> := {};
      while remaining != {}
        invariant checked + remaining == ids && checked !! remaining
        invariant Acceptable(regions, checked)
        invariant splits == Splits(checked)
        invariant fullIDs == AllIdForms(groupID, checked)
        decreases remaining
      {
        var id :| id in remaining;
        var parsed := ParseRegionVersion(id);
        if parsed.None? {
          RejectsWith(regions, groupID, ids, id);
          return Err(InvalidRegionVersionID(id));
        }
        var (regionID, versionID) := parsed.value;
        if regionID in regions && versionID in regions[regionID] {
          RejectsWith(regions, groupID, ids, id);
          return Err(AlreadyRegistered(groupID, regionID, versionID));
        }
        splits := splits + {(regionID, versionID)};
        fullIDs := fullIDs + IdForms(groupID, id, regionID);
        AcceptableStep(regions, checked, id);
        SplitsStep(checked, id);
        AllIdFormsStep(groupID, checked, id);
        checked := checked + {id};
        remaining := remaining - {id};
      }
      assert checked == ids;
      return Ok((splits, fullIDs));
    }

    /** The second loop of `registerProvider0`: bind each pair to the provider, creating the region's map if absent. */
    method Bind(splits: set<(string, string)>, provider: Provider)
      modifies this
      ensures regions == WithBindings(old(regions), splits, provider)
    {
      var pending := splits;
      ghost var bound: set<(string, string)> := {};
      WithNoBindings(regions, provider);
      while pending != {}
        invariant bound + pending == splits && bound !! pending
        invariant regions == WithBindings(old(regions), bound, provider)
        decreases pending
      {
        var split :| split in pending;
        WithOneMoreBinding(old(regions), bound, split, provider);
        if split.0 !in regions {
          regions := regions[split.0 := map[split.1 := provider]];
        } else {
          regions := regions[split.0 := regions[split.0][split.1 := provider]];
        }
        bound := bound + {split};
        pending := pending - {split};
      }
      assert bound == splits;
    }

    /**
     * `registerProvider0`: check every ID of the provider, then bind each of
     * them to the provider, then publish the parsable IDs. Either every ID is
     * registered or nothing changes.
     */
    method RegisterProvider0(provider: Provider, directory: ZoneRulesDirectory) returns (o: Outcome<ZoneError>)
      requires Valid() && provider.groupID == groupID
      modifies this, directory`ids
      ensures Valid()
      ensures o.Pass? <==> Acceptable(old(regions), provider.ids)
      ensures o.Pass? ==> regions == WithBindings(old(regions), Splits(provider.ids), provider)
      ensures o.Pass? ==> directory.ids == old(directory.ids) + AllIdForms(groupID, provider.ids)
      ensures o.Fail? ==> Rejects(old(regions), groupID, provider.ids, o.error)
      ensures o.Fail? ==> regions == old(regions) && directory.ids == old(directory.ids)
    {
      var checked := CheckIds(provider.ids);
      if checked.Err? {
        return Fail(checked.error);
      }
      var (splits, fullIDs) := checked.value;
      Bind(splits, provider);
      directory.Publish(fullIDs);
      KeepsWellFormed(old(regions), provider);
      KeepsProvenance(old(regions), groupID, provider);
      return Pass;
    }

    //-------------------------------------------------------------------------
    // Queries

    /** `getVersions`: the versions of a region, or the unknown-region failure. */
    function GetVersions(regionID: string): (r: Result<VersionMap, ZoneError>)
      reads this
      ensures r.Ok? <==> regionID in regions
      ensures r.Ok? ==> r.value == regions[regionID]
      ensures r.Err? ==> r.error == UnknownRegion(groupID, regionID)
    {
      if regionID in regions then Ok(regions[regionID]) else Err(UnknownRegion(groupID, regionID))
    }

    /** `isValidRules`: the region is known, and the version is floating (empty) or one of the region's. */
    function IsValidRules(regionID: string, versionID: string): (b: bool)
      reads this
      ensures b <==> IsRegistered(regions, regionID, versionID) || (regionID in regions && versionID == "")
    {
      regionID in regions && (|versionID| == 0 || versionID in regions[regionID])
    }

    /** `getLatestVersionID`: the largest version of the region. */
    function GetLatestVersionID(regionID: string): (r: Result<string, ZoneError>)
      requires Valid()
      reads this
      ensures r.Ok? <==> regionID in regions
      ensures r.Ok? ==> IsGreatest(r.value, regions[regionID].Keys)
      ensures r.Err? ==> r.error == UnknownRegion(groupID, regionID)
    {
      match GetVersions(regionID)
      case Err(e) => Err(e)
      case Ok(versions) => Ok(Greatest(versions.Keys))
    }

    /**
     * `getRules`: the rules of a version of a region, supplied by the provider
     * registered for it; the floating version stands for the latest one.
     */
    function GetRules<R>(regionID: string, versionID: string, zoneRules: (Provider, string, string) -> R): (r: Result<R, ZoneError>)
      requires Valid()
      reads this
      ensures r.Ok? <==> IsValidRules(regionID, versionID)
      ensures r.Ok? && versionID != "" ==> r.value == zoneRules(regions[regionID][versionID], regionID, versionID)
      ensures r.Ok? && versionID == "" ==>
        exists latest :: IsGreatest(latest, regions[regionID].Keys) &&
          r.value == zoneRules(regions[regionID][latest], regionID, latest)
      ensures r.Err? ==> r.error == if regionID !in regions then UnknownRegion(groupID, regionID)
                                    else UnknownVersion(groupID, regionID, versionID)
    {
      match GetVersions(regionID)
      case Err(e) => Err(e)
      case Ok(versions) =>
        if |versionID| == 0 then
          var latest := Greatest(versions.Keys);
          Ok(zoneRules(versions[latest], regionID, latest))
        else if versionID in versions then
          Ok(zoneRules(versions[versionID], regionID, versionID))
        else
          Err(UnknownVersion(groupID, regionID, versionID))
    }

    /** The floating version gives the rules of the version `getLatestVersionID` names. */
    lemma FloatingIsLatest<R>(regionID: string, zoneRules: (Provider, string, string) -> R)
      requires Valid() && regionID in regions
      ensures GetLatestVersionID(regionID).Ok?
      ensures GetRules(regionID, "", zoneRules) == GetRules(regionID, GetLatestVersionID(regionID).value, zoneRules)
    {
      var latest := GetLatestVersionID(regionID).value;
      assert IsPlainId(latest);
      var floating := GetRules(regionID, "", zoneRules).value;
      var g :| IsGreatest(g, regions[regionID].Keys) && floating == zoneRules(regions[regionID][g], regionID, g);
      GreatestUnique(regions[regionID].Keys, g, latest);
    }

    /** `getAvailableRegionIDs()`: every region ID, sorted. */
    function GetAvailableRegionIDs(): (ids: seq<string>)
      reads this
      ensures StrictlyAscending(ids)
      ensures forall regionID :: regionID in ids <==> regionID in regions
    {
      Ascending(regions.Keys)
    }

    /**
     * `getAvailableRegionIDs(versionID)`: the sorted IDs of the regions that
     * hold the version; every region for the floating version.
     */
    method GetAvailableRegionIDsFor(versionID: string) returns (ids: seq<string>)
      ensures StrictlyAscending(ids)
      ensures forall regionID :: regionID in ids <==> IsValidRules(regionID, versionID)
    {
      if |versionID| == 0 {
        return GetAvailableRegionIDs();
      }
      var found: set<string> := {};
      var remaining := regions.Keys;
      while remaining != {}
        invariant remaining <= regions.Keys
        invariant forall regionID :: regionID in found <==>
          regionID in regions.Keys - remaining && versionID in regions[regionID]
        decreases remaining
      {
        var regionID :| regionID in remaining;
        if versionID in regions[regionID] {
          found := found + {regionID};
        }
        remaining := remaining - {regionID};
      }
      return Ascending(found);
    }

    /** `getAvailableVersionIDs`: the versions of a region in ascending order. */
    function GetAvailableVersionIDs(regionID: string): (r: Result<seq<string>, ZoneError>)
      reads this
      ensures r.Ok? <==> regionID in regions
      ensures r.Ok? ==> StrictlyAscending(r.value) && forall v :: v in r.value <==> v in regions[regionID]
      ensures r.Err? ==> r.error == UnknownRegion(groupID, regionID)
    {
      match GetVersions(regionID)
      case Err(e) => Err(e)
      case Ok(versions) => Ok(Ascending(versions.Keys))
    }

    /** The version is registered for the region and its rules are valid for the date-time. */
    predicate ValidFor<R, DT>(regionID: string, versionID: string, dateTime: DT,
                              zoneRules: (Provider, string, string) -> R, isValidDateTime: (R, DT) -> bool)
      reads this
    {
      IsRegistered(regions, regionID, versionID) &&
      isValidDateTime(zoneRules(regions[regionID][versionID], regionID, versionID), dateTime)
    }

    /** The version is the largest one of the region whose rules are valid for the date-time. */
    ghost predicate IsLatestValidFor<R, DT>(regionID: string, versionID: string, dateTime: DT,
                                           zoneRules: (Provider, string, string) -> R, isValidDateTime: (R, DT) -> bool)
      reads this
    {
      ValidFor(regionID, versionID, dateTime, zoneRules, isValidDateTime) &&
      forall other | other in VersionsOf(regions, regionID) && other != versionID &&
                     ValidFor(regionID, other, dateTime, zoneRules, isValidDateTime) ::
        Less(other, versionID)
    }

    /** There is at most one latest valid version. */
    lemma LatestValidUnique<R, DT>(regionID: string, v: string, w: string, dateTime: DT,
                                   zoneRules: (Provider, string, string) -> R, isValidDateTime: (R, DT) -> bool)
      requires IsLatestValidFor(regionID, v, dateTime, zoneRules, isValidDateTime)
      requires IsLatestValidFor(regionID, w, dateTime, zoneRules, isValidDateTime)
      ensures v == w
    {
      if v != w {
        LessAsymmetric(v, w);
      }
    }

    /**
     * When the scan from the top stops at the first valid version, that
     * version is the latest valid one.
     */
    lemma LatestFromScan<R, DT>(regionID: string, descending: seq<string>, i: nat, dateTime: DT,
                                zoneRules: (Provider, string, string) -> R, isValidDateTime: (R, DT) -> bool)
      requires regionID in regions
      requires StrictlyAscending(descending) && forall x :: x in descending <==> x in regions[regionID]
      requires 0 < i <= |descending|
      requires forall j :: i <= j < |descending| ==>
        !isValidDateTime(zoneRules(regions[regionID][descending[j]], regionID, descending[j]), dateTime)
      requires isValidDateTime(zoneRules(regions[regionID][descending[i - 1]], regionID, descending[i - 1]), dateTime)
      ensures IsLatestValidFor(regionID, descending[i - 1], dateTime, zoneRules, isValidDateTime)
    {
      var versionID := descending[i - 1];
      forall other | other in VersionsOf(regions, regionID) && other != versionID &&
                     ValidFor(regionID, other, dateTime, zoneRules, isValidDateTime)
        ensures Less(other, versionID)
      {
        var k :| 0 <= k < |descending| && descending[k] == other;
        assert k < i - 1;
      }
    }

    /** When the scan finds no valid version, no version of the region is valid. */
    lemma NoneValidFromScan<R, DT>(regionID: string, descending: seq<string>, dateTime: DT,
                                   zoneRules: (Provider, string, string) -> R, isValidDateTime: (R, DT) -> bool)
      requires regionID in regions
      requires forall x :: x in descending <==> x in regions[regionID]
      requires forall j :: 0 <= j < |descending| ==>
        !isValidDateTime(zoneRules(regions[regionID][descending[j]], regionID, descending[j]), dateTime)
      ensures forall versionID :: !ValidFor(regionID, versionID, dateTime, zoneRules, isValidDateTime)
    {
      forall versionID
        ensures !ValidFor(regionID, versionID, dateTime, zoneRules, isValidDateTime)
      {
        if versionID in regions[regionID] {
          var k :| 0 <= k < |descending| && descending[k] == versionID;
        }
      }
    }

    /**
     * `getLatestVersionIDValidFor`: scan the region's versions from the
     * largest down and give the first whose rules are valid for the date-time.
     */
    method GetLatestVersionIDValidFor<R, DT>(regionID: string, dateTime: DT,
                                             zoneRules: (Provider, string, string) -> R,
                                             isValidDateTime: (R, DT) -> bool)
      returns (r: Result<string, ZoneError>)
      ensures r.Ok? ==> IsLatestValidFor(regionID, r.value, dateTime, zoneRules, isValidDateTime)
      ensures r.Err? && regionID !in regions ==> r.error == UnknownRegion(groupID, regionID)
      ensures r.Err? && regionID in regions ==>
        r.error == NoValidRules(groupID, regionID) &&
        forall versionID :: !ValidFor(regionID, versionID, dateTime, zoneRules, isValidDateTime)
    {
      var found := GetVersions(regionID);
      if found.Err? {
        return Err(found.error);
      }
      var versions := found.value;
      var descending := Ascending(versions.Keys);
      var i := |descending|;
      while i > 0
        invariant 0 <= i <= |descending|
        invariant forall j :: i <= j < |descending| ==>
          !isValidDateTime(zoneRules(versions[descending[j]], regionID, descending[j]), dateTime)
      {
        var versionID := descending[i - 1];
        if isValidDateTime(zoneRules(versions[versionID], regionID, versionID), dateTime) {
          LatestFromScan(regionID, descending, i, dateTime, zoneRules, isValidDateTime);
          return Ok(versionID);
        }
        i := i - 1;
      }
      NoneValidFromScan(regionID, descending, dateTime, zoneRules, isValidDateTime);
      return Err(NoValidRules(groupID, regionID));
    }

    /**
     * What `getRulesValidFor` accepts: a named version must be registered and
     * valid for the date-time; the floating version needs some valid version.
     */
    ghost predicate ResolvesValidFor<R, DT>(regionID: string, versionID: string, dateTime: DT,
                                           zoneRules: (Provider, string, string) -> R, isValidDateTime: (R, DT) -> bool)
      reads this
    {
      if versionID != "" then ValidFor(regionID, versionID, dateTime, zoneRules, isValidDateTime)
      else exists other :: ValidFor(regionID, other, dateTime, zoneRules, isValidDateTime)
    }

    /**
     * `getRulesValidFor`: the rules of a named version if they are valid for
     * the date-time; for the floating version, the rules of the latest version
     * valid for it.
     */
    method GetRulesValidFor<R, DT>(regionID: string, versionID: string, dateTime: DT,
                                   zoneRules: (Provider, string, string) -> R,
                                   isValidDateTime: (R, DT) -> bool)
      returns (r: Result<R, ZoneError>)
      requires Valid()
      ensures r.Ok? <==> ResolvesValidFor(regionID, versionID, dateTime, zoneRules, isValidDateTime)
      ensures r.Ok? && versionID != "" ==> r.value == zoneRules(regions[regionID][versionID], regionID, versionID)
      ensures r.Ok? && versionID == "" ==>
        exists latest :: IsLatestValidFor(regionID, latest, dateTime, zoneRules, isValidDateTime) &&
          r.value == zoneRules(regions[regionID][latest], regionID, latest)
      ensures r.Err? && regionID !in regions ==> r.error == UnknownRegion(groupID, regionID)
      ensures r.Err? && regionID in regions && versionID == "" ==> r.error == NoValidRules(groupID, regionID)
      ensures r.Err? && regionID in regions && versionID != "" ==>
        r.error == if versionID in regions[regionID] then InvalidForDateTime(groupID, regionID, versionID)
                   else UnknownVersion(groupID, regionID, versionID)
    {
      if |versionID| > 0 {
        var rules := GetRules(regionID, versionID, zoneRules);
        if rules.Err? {
          return rules;
        }
        if !isValidDateTime(rules.value, dateTime) {
          return Err(InvalidForDateTime(groupID, regionID, versionID));
        }
        return rules;
      }
      var latest := GetLatestVersionIDValidFor(regionID, dateTime, zoneRules, isValidDateTime);
      if latest.Err? {
        return Err(latest.error);
      }
      assert IsPlainId(latest.value);
      return GetRules(regionID, latest.value, zoneRules);
    }

    /** `isValidRulesFor`: whether `getRulesValidFor` succeeds. */
    method IsValidRulesFor<R, DT>(regionID: string, versionID: string, dateTime: DT,
                                  zoneRules: (Provider, string, string) -> R,
                                  isValidDateTime: (R, DT) -> bool)
      returns (b: bool)
      requires Valid()
      ensures b <==> ResolvesValidFor(regionID, versionID, dateTime, zoneRules, isValidDateTime)
    {
      var rules := GetRulesValidFor(regionID, versionID, dateTime, zoneRules, isValidDateTime);
      return rules.Ok?;
    }

    /** `equals`: groups are equal when their IDs are. */
    function Equals(other: ZoneRulesGroup): (b: bool)
      ensures b <==> groupID == other.groupID
    {
      this == other || groupID == other.groupID
    }
  }

  //---------------------------------------------------------------------------
  // The directory of groups

  /** The IDs that the bindings of group `groupID` make parsable. */
  ghost function RegionForms(groupID: string, regions: RegionMap): set<string> {
    set regionID, versionID, form | regionID in regions && versionID in regions[regionID] &&
      form in IdForms(groupID, JoinRegionVersion(regionID, versionID), regionID) :: form
  }

  /**
   * The complete set of parsable IDs for the regions of each group: for every
   * binding its two prefixed forms, and in TZDB also its two bare forms.
   */
  ghost function AllForms(byGroup: map<string, RegionMap>): set<string> {
    set groupID, form | groupID in byGroup && form in RegionForms(groupID, byGroup[groupID]) :: form
  }

  /** An accepted registration adds exactly the forms of the provider's IDs. */
  lemma RegisteredForms(groupID: string, regions: RegionMap, provider: Provider)
    requires Acceptable(regions, provider.ids)
    ensures RegionForms(groupID, WithBindings(regions, Splits(provider.ids), provider))
         == RegionForms(groupID, regions) + AllIdForms(groupID, provider.ids)
  {
    var after: RegionMap := WithBindings(regions, Splits(provider.ids), provider);
    KeepsEarlier(regions, provider.ids, provider);
    BindsAll(regions, provider.ids, provider);
    forall form | form in RegionForms(groupID, after)
      ensures form in RegionForms(groupID, regions) + AllIdForms(groupID, provider.ids)
    {
      var regionID, versionID :| regionID in after && versionID in after[regionID] &&
        form in IdForms(groupID, JoinRegionVersion(regionID, versionID), regionID);
      BindingAfter(regions, provider, regionID, versionID);
      if versionID in NewVersions(Splits(provider.ids), regionID) {
        FromSplit(provider.ids, regionID, versionID);
        ParseJoin(regionID, versionID);
      }
    }
    forall form | form in RegionForms(groupID, regions) + AllIdForms(groupID, provider.ids)
      ensures form in RegionForms(groupID, after)
    {
      if form !in RegionForms(groupID, regions) {
        var id :| id in provider.ids && ParseRegionVersion(id).Some? &&
          form in IdForms(groupID, id, ParseRegionVersion(id).value.0);
        var (regionID, versionID) := ParseRegionVersion(id).value;
        assert IsRegistered(after, regionID, versionID);
        assert id == JoinRegionVersion(regionID, versionID);
      }
    }
  }

  /** A group without bindings makes nothing parsable. */
  lemma NoRegionsNoForms(groupID: string)
    ensures RegionForms(groupID, map[]) == {}
  {
  }

  /** Changing the regions of one group changes the complete set by that group's change. */
  lemma AllFormsUpdate(byGroup: map<string, RegionMap>, groupID: string, regions: RegionMap, added: set<string>)
    requires RegionForms(groupID, regions)
          == RegionForms(groupID, if groupID in byGroup then byGroup[groupID] else map[]) + added
    ensures AllForms(byGroup[groupID := regions]) == AllForms(byGroup) + added
  {
    NoRegionsNoForms(groupID);
    var after := byGroup[groupID := regions];
    forall form | form in AllForms(after)
      ensures form in AllForms(byGroup) + added
    {
      var g :| g in after && form in RegionForms(g, after[g]);
      if g == groupID && form !in added {
        assert form in RegionForms(groupID, byGroup[groupID]);
      }
    }
    forall form | form in AllForms(byGroup) + added
      ensures form in AllForms(after)
    {
      if form in added {
        assert form in RegionForms(groupID, after[groupID]);
      } else {
        var g :| g in byGroup && form in RegionForms(g, byGroup[g]);
        assert form in RegionForms(g, after[g]);
      }
    }
  }

  /** The forms of one binding of Europe/London in TZDB. */
  lemma LondonIdForms(versionID: string)
    ensures IdForms(TZDB, JoinRegionVersion("Europe/London", versionID), "Europe/London")
         == {"Europe/London", "Europe/London#" + versionID, "TZDB:Europe/London", "TZDB:Europe/London#" + versionID}
  {
    assert JoinRegionVersion("Europe/London", versionID) == "Europe/London#" + versionID;
    assert TZDB + ":" + "Europe/London" == "TZDB:Europe/London";
    assert TZDB + ":" + ("Europe/London#" + versionID) == "TZDB:Europe/London#" + versionID;
  }

  /**
   * The example of `getParsableIDs`: TZDB with the one region Europe/London
   * in versions 2009a and 2009b makes six IDs parsable.
   */
  lemma LondonParsableIDs(provider: Provider)
    ensures AllForms(map[TZDB := map["Europe/London" := map["2009a" := provider, "2009b" := provider]]])
         == {"Europe/London", "Europe/London#2009a", "Europe/London#2009b",
             "TZDB:Europe/London", "TZDB:Europe/London#2009a", "TZDB:Europe/London#2009b"}
  {
    var regions: RegionMap := map["Europe/London" := map["2009a" := provider, "2009b" := provider]];
    LondonRegionForms(provider);
    LondonFormsListed();
    AllFormsUpdate(map[], TZDB, regions, RegionForms(TZDB, regions));
  }

  /** The bindings of the example, before they are collected by group. */
  lemma LondonRegionForms(provider: Provider)
    ensures RegionForms(TZDB, map["Europe/London" := map["2009a" := provider, "2009b" := provider]])
         == IdForms(TZDB, JoinRegionVersion("Europe/London", "2009a"), "Europe/London")
          + IdForms(TZDB, JoinRegionVersion("Europe/London", "2009b"), "Europe/London")
  {
    var regions: RegionMap := map["Europe/London" := map["2009a" := provider, "2009b" := provider]];
    var first := IdForms(TZDB, JoinRegionVersion("Europe/London", "2009a"), "Europe/London");
    var second := IdForms(TZDB, JoinRegionVersion("Europe/London", "2009b"), "Europe/London");
    forall form | form in RegionForms(TZDB, regions)
      ensures form in first + second
    {
      var regionID, versionID :| regionID in regions && versionID in regions[regionID] &&
        form in IdForms(TZDB, JoinRegionVersion(regionID, versionID), regionID);
      assert regionID == "Europe/London" && (versionID == "2009a" || versionID == "2009b");
    }
    forall form | form in first + second
      ensures form in RegionForms(TZDB, regions)
    {
      assert "2009a" in regions["Europe/London"] && "2009b" in regions["Europe/London"];
    }
  }

  /** The forms of the example's two bindings, written out. */
  lemma LondonFormsListed()
    ensures IdForms(TZDB, JoinRegionVersion("Europe/London", "2009a"), "Europe/London")
          + IdForms(TZDB, JoinRegionVersion("Europe/London", "2009b"), "Europe/London")
         == {"Europe/London", "Europe/London#2009a", "Europe/London#2009b",
             "TZDB:Europe/London", "TZDB:Europe/London#2009a", "TZDB:Europe/London#2009b"}
  {
    LondonIdForms("2009a");
    LondonIdForms("2009b");
    assert "Europe/London#" + "2009a" == "Europe/London#2009a";
    assert "Europe/London#" + "2009b" == "Europe/London#2009b";
    assert "TZDB:Europe/London#" + "2009a" == "TZDB:Europe/London#2009a";
    assert "TZDB:Europe/London#" + "2009b" == "TZDB:Europe/London#2009b";
  }

  /**
   * One registration with the provider's group keeps the parsable IDs equal
   * to the forms of all bindings, whether it is accepted or refused.
   */
  lemma FormsAfterRegistration(byGroup: map<string, RegionMap>, provider: Provider, regions: RegionMap,
                               regions': RegionMap, accepted: bool, ids: set<string>, ids': set<string>)
    requires ids == AllForms(byGroup)
    requires provider.groupID in byGroup && byGroup[provider.groupID] == regions
    requires accepted ==> Acceptable(regions, provider.ids)
    requires accepted ==> regions' == WithBindings(regions, Splits(provider.ids), provider)
    requires accepted ==> ids' == ids + AllIdForms(provider.groupID, provider.ids)
    requires !accepted ==> regions' == regions && ids' == ids
    ensures ids' == AllForms(byGroup[provider.groupID := regions'])
  {
    if accepted {
      RegisteredForms(provider.groupID, regions, provider);
      AllFormsUpdate(byGroup, provider.groupID, regions', AllIdForms(provider.groupID, provider.ids));
    } else {
      AllFormsUpdate(byGroup, provider.groupID, regions', {});
    }
  }

  /** The static state of `ZoneRulesGroup`: the groups by ID (`GROUPS`) and the parsable IDs (`IDS`). */
  class ZoneRulesDirectory {
    var groups: map<string, ZoneRulesGroup>
    var ids: set<string>

    ghost predicate Valid()
      reads this, groups.Values
    {
      (forall groupID | groupID in groups :: groups[groupID].groupID == groupID && groups[groupID].Valid()) &&
      ids == AllForms(RegionsByGroup())
    }

    /** The regions of every group, by group ID. */
    ghost function RegionsByGroup(): map<string, RegionMap>
      reads this, groups.Values
    {
      map groupID | groupID in groups :: groups[groupID].regions
    }

    constructor ()
      ensures Valid() && groups == map[] && ids == {}
    {
      groups := map[];
      ids := {};
    }

    /** The last loop of `registerProvider0`: add each full ID to the parsable IDs. */
    method Publish(fullIDs: set<string>)
      modifies this`ids
      ensures ids == old(ids) + fullIDs
    {
      var toPublish := fullIDs;
      ghost var published: set<string> := {};
      while toPublish != {}
        invariant published + toPublish == fullIDs
        invariant ids == old(ids) + published
        decreases toPublish
      {
        var fullID :| fullID in toPublish;
        ids := ids + {fullID};
        published := published + {fullID};
        toPublish := toPublish - {fullID};
      }
    }

    /** `isValidGroup`: a group of that ID exists. */
    function IsValidGroup(groupID: string): (b: bool)
      reads this
      ensures b <==> groupID in groups
    {
      groupID in groups
    }

    /** `getGroup`: the group of that ID; the failure says whether any group exists at all. */
    function GetGroup(groupID: string): (r: Result<ZoneRulesGroup, ZoneError>)
      reads this
      ensures r.Ok? <==> IsValidGroup(groupID)
      ensures r.Ok? ==> r.value == groups[groupID]
      ensures r.Err? ==> r.error == if groups == map[] then NoDataRegistered(groupID) else UnknownGroup(groupID)
    {
      if groupID in groups then Ok(groups[groupID])
      else if groups == map[] then Err(NoDataRegistered(groupID))
      else Err(UnknownGroup(groupID))
    }

    /** `getAvailableGroups`: every group, each found again under its own ID. */
    function GetAvailableGroups(): (available: set<ZoneRulesGroup>)
      requires Valid()
      reads this, groups.Values
      ensures forall group | group in available :: GetGroup(group.groupID) == Ok(group)
      ensures forall groupID | groupID in groups :: groups[groupID] in available
    {
      groups.Values
    }

    /** `getParsableIDs`: the IDs registration has published. */
    function GetParsableIDs(): (parsable: set<string>)
      requires Valid()
      reads this, groups.Values
      ensures parsable == ids
      ensures parsable == AllForms(RegionsByGroup())
    {
      ids
    }

    /** The regions of the group of that ID, none if there is no such group. */
    ghost function RegionsOf(groupID: string): RegionMap
      reads this, groups.Values
    {
      if groupID in groups then groups[groupID].regions else map[]
    }

    /**
     * The first half of `registerProvider`: the group of that ID, created
     * with no regions and stored when it does not exist yet.
     */
    method GroupFor(groupID: string) returns (r: Result<ZoneRulesGroup, ZoneError>)
      requires Valid()
      modifies this`groups
      ensures Valid()
      ensures r.Ok? <==> IsPlainId(groupID)
      ensures r.Err? ==> r.error == InvalidGroupID(groupID) && groups == old(groups)
      ensures r.Ok? ==> groups == old(groups)[groupID := r.value]
      ensures r.Ok? && groupID in old(groups) ==> r.value == old(groups[groupID])
      ensures r.Ok? && groupID !in old(groups) ==> fresh(r.value)
      ensures RegionsOf(groupID) == old(RegionsOf(groupID))
    {
      if groupID in groups {
        return Ok(groups[groupID]);
      }
      ghost var before := RegionsByGroup();
      var created := ZoneRulesGroup.Create(groupID);
      if created.Err? {
        return Err(created.error);
      }
      groups := groups[groupID := created.value];
      ghost var now := RegionsByGroup();
      ghost var expected := before[groupID := map[]];
      forall g | g in now
        ensures g in expected && now[g] == expected[g]
      {
      }
      assert now.Keys == expected.Keys;
      assert now == expected;
      NoRegionsNoForms(groupID);
      AllFormsUpdate(before, groupID, map[], {});
      return Ok(created.value);
    }

    /**
     * `registerProvider`: register the provider with the group its group ID
     * names, creating and storing that group first if it does not exist yet.
     */
    method RegisterProvider(provider: Provider) returns (o: Outcome<ZoneError>)
      requires Valid()
      modifies this, groups.Values
      ensures Valid()
      ensures o.Pass? <==> IsPlainId(provider.groupID) && Acceptable(old(RegionsOf(provider.groupID)), provider.ids)
      ensures o.Pass? ==> RegionsOf(provider.groupID)
                          == WithBindings(old(RegionsOf(provider.groupID)), Splits(provider.ids), provider)
      ensures o.Pass? ==> ids == old(ids) + AllIdForms(provider.groupID, provider.ids)
      ensures o.Fail? ==> RegionsOf(provider.groupID) == old(RegionsOf(provider.groupID)) && ids == old(ids)
      ensures o.Fail? && !IsPlainId(provider.groupID) ==> o.error == InvalidGroupID(provider.groupID) && groups == old(groups)
      ensures o.Fail? && IsPlainId(provider.groupID) ==>
        Rejects(old(RegionsOf(provider.groupID)), provider.groupID, provider.ids, o.error)
      ensures IsPlainId(provider.groupID) ==> groups.Keys == old(groups.Keys) + {provider.groupID}
      ensures forall groupID | groupID in old(groups) :: groups[groupID] == old(groups[groupID])
      ensures forall groupID | groupID in old(groups) && groupID != provider.groupID ::
        groups[groupID].regions == old(groups[groupID].regions)
    {
      var found := GroupFor(provider.groupID);
      if found.Err? {
        return Fail(found.error);
      }
      o := RegisterWithGroup(found.value, provider);
    }

    /**
     * The second half of `registerProvider`: `registerProvider0` on the
     * stored group of the provider's group ID.
     */
    method RegisterWithGroup(group: ZoneRulesGroup, provider: Provider) returns (o: Outcome<ZoneError>)
      requires Valid()
      requires provider.groupID in groups && groups[provider.groupID] == group
      modifies group, this`ids
      ensures Valid()
      ensures o.Pass? <==> Acceptable(old(group.regions), provider.ids)
      ensures o.Pass? ==> group.regions == WithBindings(old(group.regions), Splits(provider.ids), provider)
      ensures o.Pass? ==> ids == old(ids) + AllIdForms(provider.groupID, provider.ids)
      ensures o.Fail? ==> Rejects(old(group.regions), provider.groupID, provider.ids, o.error)
      ensures o.Fail? ==> group.regions == old(group.regions) && ids == old(ids)
      ensures forall groupID | groupID in groups && groupID != provider.groupID ::
        groups[groupID].regions == old(groups[groupID].regions)
    {
      ghost var before := RegionsByGroup();
      o := group.RegisterProvider0(provider, this);
      forall groupID | groupID in groups
        ensures groups[groupID].groupID == groupID && groups[groupID].Valid()
        ensures groupID != provider.groupID ==> groups[groupID].regions == old(groups[groupID].regions)
      {
        if groupID != provider.groupID {
          assert groups[groupID] != group;
        }
      }
      assert RegionsByGroup() == before[provider.groupID := group.regions] by {
        ghost var now := RegionsByGroup();
        ghost var expected := before[provider.groupID := group.regions];
        forall groupID | groupID in now
          ensures groupID in expected && now[groupID] == expected[groupID]
        {
        }
        assert now.Keys == expected.Keys;
      }
      FormsAfterRegistration(before, provider, old(group.regions), group.regions, o.Pass?, old(ids), ids);
    }
  }

  //---------------------------------------------------------------------------
  // Consequences

  /** A provider registered once is refused the second time: all its IDs are taken. */
  lemma SecondRegistrationFails(regions: RegionMap, provider: Provider)
    requires provider.ids != {}
    ensures !Acceptable(WithBindings(regions, Splits(provider.ids), provider), provider.ids)
  {
    var id :| id in provider.ids;
    if ParseRegionVersion(id).Some? {
      BindsAll(regions, provider.ids, provider);
    }
  }
}
