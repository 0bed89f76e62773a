/** What any sequence of sync passes keeps: valid parents, stable ids, exact skipping. */
module PlatformSyncTheorems {
  import opened Wrappers
  import opened PlatformSync

  // ----- consistency -----

  /** Ids come from the supply and are unique within the table. */
  ghost predicate UniqueIds(t: Table, bound: nat) {
    && (forall k | k in t :: t[k].id < bound)
    && (forall k1, k2 | k1 in t && k2 in t && t[k1].id == t[k2].id :: k1 == k2)
  }

  /** The parent id points at a row of the same client and platform. */
  ghost predicate HasParent(parents: Table, k: UniqueKey, row: Row) {
    row.parentId.Some? &&
    exists p :: p in parents && p.client == k.client && p.integration == k.integration
        && parents[p].id == row.parentId.value
  }

  ghost predicate AllHaveParents(children: Table, parents: Table) {
    forall k | k in children :: HasParent(parents, k, children[k])
  }

  ghost predicate Consistent(s: Tables) {
    && UniqueIds(s.campaigns, s.nextId) && UniqueIds(s.adSets, s.nextId) && UniqueIds(s.ads, s.nextId)
    && AllHaveParents(s.adSets, s.campaigns) && AllHaveParents(s.ads, s.adSets)
  }

  /** Every row is still there under its id. */
  ghost predicate SameIds(t: Table, t': Table) {
    forall k | k in t :: k in t' && t'[k].id == t[k].id
  }

  ghost predicate AllSameIds(s: Tables, s': Tables) {
    SameIds(s.campaigns, s'.campaigns) && SameIds(s.adSets, s'.adSets) && SameIds(s.ads, s'.ads)
  }

  // ----- one statement -----

  /** Values of one client and platform with consecutive new ids. */
  ghost predicate Numbered(values: seq<Value>, client: string, integration: string, firstId: nat) {
    forall i | 0 <= i < |values| ::
      values[i].row.id == firstId + i && values[i].key.client == client && values[i].key.integration == integration
  }

  /** The table after upserting: each value's row under the id its key already had, if
      any, and nothing else touched. */
  ghost predicate Upserted(t: Table, values: seq<Value>, t': Table) {
    && (forall i | 0 <= i < |values| :: values[i].key in t' &&
          t'[values[i].key] == if values[i].key in t then values[i].row.(id := t[values[i].key].id) else values[i].row)
    && (forall k | k in t && !HasKey(values, k) :: k in t' && t'[k] == t[k])
    && (forall k | k in t' && !HasKey(values, k) :: k in t)
  }

  ghost predicate HasKey(values: seq<Value>, k: UniqueKey) {
    exists i :: 0 <= i < |values| && values[i].key == k
  }

  lemma {:induction false} UpsertAllUpserts(t: Table, values: seq<Value>)
    requires DistinctKeys(values)
    ensures Upserted(t, values, UpsertAll(t, values))
  {
    hide Upserted, UpsertOne;
    if values == [] {
      NothingUpserted(t);
    } else {
      var front, last := values[..|values| - 1], values[|values| - 1];
      UpsertAllUpserts(t, front);
      UpsertOneMore(t, front, last, UpsertAll(t, front));
      assert values == front + [last];
    }
  }

  lemma NothingUpserted(t: Table)
    ensures Upserted(t, [], t)
  {
  }

  lemma UpsertOneMore(t: Table, front: seq<Value>, last: Value, t1: Table)
    requires Upserted(t, front, t1) && forall i | 0 <= i < |front| :: front[i].key != last.key
    ensures Upserted(t, front + [last], UpsertOne(t1, last))
  {
    var values := front + [last];
    assert values[|front|].key == last.key;
    forall k ensures HasKey(values, k) <==> HasKey(front, k) || k == last.key {
      if HasKey(front, k) {
        var i :| 0 <= i < |front| && front[i].key == k;
        assert values[i].key == k;
      }
    }
    assert !HasKey(front, last.key);
  }

  lemma UpsertedKeepsIds(t: Table, values: seq<Value>, t': Table)
    requires Upserted(t, values, t')
    ensures SameIds(t, t')
  {
    forall k | k in t ensures k in t' && t'[k].id == t[k].id {
      if HasKey(values, k) {
        var i :| 0 <= i < |values| && values[i].key == k;
      }
    }
  }

  lemma UpsertedUniqueIds(t: Table, values: seq<Value>, t': Table, client: string, integration: string, firstId: nat)
    requires Upserted(t, values, t') && UniqueIds(t, firstId) && Numbered(values, client, integration, firstId)
    ensures UniqueIds(t', firstId + |values|)
  {
    forall k | k in t' ensures IdFrom(t, values, t', k, firstId) {
      if k !in t {
        var i :| 0 <= i < |values| && values[i].key == k;
      } else {
        UpsertedKeepsIds(t, values, t');
      }
    }
  }

  /** A row has its old id, or the new number of its value. */
  ghost predicate IdFrom(t: Table, values: seq<Value>, t': Table, k: UniqueKey, firstId: nat)
    requires k in t'
  {
    if k in t then t'[k].id == t[k].id
    else exists i :: 0 <= i < |values| && values[i].key == k && t'[k].id == firstId + i
  }

  // ----- the ids a statement returns -----

  lemma ReturnedIds(t: Table, client: string, integration: string, values: seq<Value>, firstId: nat)
    requires Numbered(values, client, integration, firstId) && forall i | 0 <= i < |values| :: values[i].key in t
    ensures var ids := Returning(t, client, integration, values);
      && (forall e | e in ids ::
            UniqueKey(client, integration, e) in t && t[UniqueKey(client, integration, e)].id == ids[e])
      && (forall e :: e in ids <==> HasKey(values, UniqueKey(client, integration, e)))
  {
  }

  // ----- children -----

  /** The values of a child batch stand for its kept rows, in order. */
  lemma {:induction false} ChildValuesAre(client: string, integration: string, rows: seq<ChildIn>,
                                          parents: map<string, nat>, firstId: nat)
    ensures var values, kept := ChildValues(client, integration, rows, parents, firstId), Kept(rows, parents);
      && |values| == |kept| && Numbered(values, client, integration, firstId)
      && forall i | 0 <= i < |kept| ::
           && Str(kept[i].parentExternalId) in parents
           && values[i].key == UniqueKey(client, integration, kept[i].externalId)
           && values[i].row.parentId == Some(parents[Str(kept[i].parentExternalId)])
           && values[i].row.columns == kept[i].columns
  {
    if rows != [] {
      ChildValuesAre(client, integration, rows[..|rows| - 1], parents, firstId);
    }
  }

  /** The returned parent ids point at rows of this client and platform. */
  ghost predicate ParentIds(parents: Table, client: string, integration: string, ids: map<string, nat>) {
    forall e | e in ids :: UniqueKey(client, integration, e) in parents
        && parents[UniqueKey(client, integration, e)].id == ids[e]
  }

  ghost predicate LinkedTo(v: Value, client: string, integration: string, ids: map<string, nat>) {
    && v.key.client == client && v.key.integration == integration
    && exists e :: e in ids && v.row.parentId == Some(ids[e])
  }

  lemma ChildrenHaveParents(t: Table, values: seq<Value>, t': Table, parents: Table, client: string,
                            integration: string, ids: map<string, nat>)
    requires Upserted(t, values, t') && AllHaveParents(t, parents) && ParentIds(parents, client, integration, ids)
    requires forall i | 0 <= i < |values| :: LinkedTo(values[i], client, integration, ids)
    ensures AllHaveParents(t', parents)
  {
    forall k | k in t' ensures HasParent(parents, k, t'[k]) {
      if HasKey(values, k) {
        var i :| 0 <= i < |values| && values[i].key == k;
        var e :| e in ids && values[i].row.parentId == Some(ids[e]);
        assert UniqueKey(client, integration, e) in parents;
      }
    }
  }

  lemma ParentsStay(children: Table, parents: Table, parents': Table)
    requires AllHaveParents(children, parents) && SameIds(parents, parents')
    ensures AllHaveParents(children, parents')
  {
    forall k | k in children ensures HasParent(parents', k, children[k]) {
      assert HasParent(parents, k, children[k]);
      var p :| p in parents && p.client == k.client && p.integration == k.integration
          && parents[p].id == children[k].parentId.value;
      assert p in parents';
    }
  }

  // ----- one pass -----

  /** The ids of a statement are those of these rows. */
  ghost predicate IdsOf(ids: map<string, nat>, names: seq<string>) {
    && |ids| == |names|
    && forall e :: e in ids <==> exists i :: 0 <= i < |names| && names[i] == e
  }

  function CampaignNames(rows: seq<CampaignIn>): seq<string> {
    seq(|rows|, i requires 0 <= i < |rows| => rows[i].externalId)
  }

  function ChildNames(rows: seq<ChildIn>): seq<string> {
    seq(|rows|, i requires 0 <= i < |rows| => rows[i].externalId)
  }

  ghost predicate Named(values: seq<Value>, client: string, integration: string, names: seq<string>) {
    |values| == |names| && forall i | 0 <= i < |names| :: values[i].key == UniqueKey(client, integration, names[i])
  }

  lemma {:induction false} NameCount(names: seq<string>, n: nat)
    requires n <= |names| && forall i, j | 0 <= i < j < |names| :: names[i] != names[j]
    ensures |set i | 0 <= i < n :: names[i]| == n
  {
    if n > 0 {
      NameCount(names, n - 1);
      assert (set i | 0 <= i < n :: names[i]) == (set i | 0 <= i < n - 1 :: names[i]) + {names[n - 1]};
    }
  }

  lemma ReturnedIdsOf(t: Table, t': Table, client: string, integration: string, values: seq<Value>,
                      names: seq<string>, firstId: nat)
    requires Upserted(t, values, t') && Numbered(values, client, integration, firstId) && DistinctKeys(values)
    requires Named(values, client, integration, names)
    ensures IdsOf(Returning(t', client, integration, values), names)
  {
    var ids := Returning(t', client, integration, values);
    ReturnedIds(t', client, integration, values, firstId);
    hide Returning, Upserted, Numbered;
    forall e ensures e in ids <==> exists i :: 0 <= i < |names| && names[i] == e {
      if HasKey(values, UniqueKey(client, integration, e)) {
        var i :| 0 <= i < |values| && values[i].key == UniqueKey(client, integration, e);
        assert names[i] == e;
      }
      if i :| 0 <= i < |names| && names[i] == e {
        assert values[i].key == UniqueKey(client, integration, e);
      }
    }
    forall i, j | 0 <= i < j < |names| ensures names[i] != names[j] {
      assert values[i].key != values[j].key;
    }
    NameCount(names, |names|);
    assert ids.Keys == set i | 0 <= i < |names| :: names[i];
  }

  lemma CampaignValuesAre(client: string, integration: string, rows: seq<CampaignIn>, firstId: nat)
    ensures var values := CampaignValues(client, integration, rows, firstId);
            Numbered(values, client, integration, firstId) && Named(values, client, integration, CampaignNames(rows))
  {
  }

  lemma ChildValuesNamed(client: string, integration: string, rows: seq<ChildIn>, parents: map<string, nat>,
                         firstId: nat)
    ensures Named(ChildValues(client, integration, rows, parents, firstId), client, integration,
                  ChildNames(Kept(rows, parents)))
  {
    ChildValuesAre(client, integration, rows, parents, firstId);
  }

  lemma CampaignsKeep(s: Tables, client: string, integration: string, rows: seq<CampaignIn>)
    requires Consistent(s) && SyncCampaigns(s, client, integration, rows).Ok?
    ensures var (s', ids) := SyncCampaigns(s, client, integration, rows).value;
      && Consistent(s') && AllSameIds(s, s') && ParentIds(s'.campaigns, client, integration, ids)
      && Upserted(s.campaigns, CampaignValues(client, integration, rows, s.nextId), s'.campaigns)
      && s'.adSets == s.adSets && s'.ads == s.ads
      && IdsOf(ids, CampaignNames(rows))
  {
    var values := CampaignValues(client, integration, rows, s.nextId);
    var t' := UpsertAll(s.campaigns, values);
    CampaignValuesAre(client, integration, rows, s.nextId);
    hide UniqueIds, AllHaveParents, Upserted, SameIds, ParentIds, CampaignValues, UpsertAll, Returning, IdsOf, Named,
        Numbered;
    UpsertAllUpserts(s.campaigns, values);
    UpsertedKeepsIds(s.campaigns, values, t');
    UpsertedUniqueIds(s.campaigns, values, t', client, integration, s.nextId);
    ParentsStay(s.adSets, s.campaigns, t');
    SameIdsSelf(s.adSets);
    SameIdsSelf(s.ads);
    LaterUniqueIds(s.adSets, s.nextId, s.nextId + |values|);
    LaterUniqueIds(s.ads, s.nextId, s.nextId + |values|);
    ReturnedParentIds(s.campaigns, t', client, integration, values, s.nextId);
    ReturnedIdsOf(s.campaigns, t', client, integration, values, CampaignNames(rows), s.nextId);
  }

  lemma AdSetsKeep(s: Tables, client: string, integration: string, rows: seq<ChildIn>, parents: map<string, nat>)
    requires Consistent(s) && ParentIds(s.campaigns, client, integration, parents)
    requires SyncAdSets(s, client, integration, rows, parents).Ok?
    ensures var (s', ids) := SyncAdSets(s, client, integration, rows, parents).value;
      && Consistent(s') && AllSameIds(s, s') && ParentIds(s'.adSets, client, integration, ids)
      && Upserted(s.adSets, ChildValues(client, integration, rows, parents, s.nextId), s'.adSets)
      && s'.campaigns == s.campaigns && s'.ads == s.ads
      && IdsOf(ids, ChildNames(Kept(rows, parents)))
  {
    var values := ChildValues(client, integration, rows, parents, s.nextId);
    var t' := UpsertAll(s.adSets, values);
    ChildValuesLinked(client, integration, rows, parents, s.nextId);
    ChildValuesNamed(client, integration, rows, parents, s.nextId);
    hide UniqueIds, AllHaveParents, Upserted, SameIds, ParentIds, ChildValues, Kept, UpsertAll, Returning, IdsOf, Named;
    UpsertAllUpserts(s.adSets, values);
    UpsertedKeepsIds(s.adSets, values, t');
    UpsertedUniqueIds(s.adSets, values, t', client, integration, s.nextId);
    ChildrenHaveParents(s.adSets, values, t', s.campaigns, client, integration, parents);
    ParentsStay(s.ads, s.adSets, t');
    SameIdsSelf(s.campaigns);
    SameIdsSelf(s.ads);
    LaterUniqueIds(s.campaigns, s.nextId, s.nextId + |values|);
    LaterUniqueIds(s.ads, s.nextId, s.nextId + |values|);
    ReturnedParentIds(s.adSets, t', client, integration, values, s.nextId);
    ReturnedIdsOf(s.adSets, t', client, integration, values, ChildNames(Kept(rows, parents)), s.nextId);
  }

  lemma SameIdsSelf(t: Table)
    ensures SameIds(t, t)
  {
  }

  lemma LaterUniqueIds(t: Table, bound: nat, later: nat)
    requires UniqueIds(t, bound) && bound <= later
    ensures UniqueIds(t, later)
  {
  }

  lemma ReturnedParentIds(t: Table, t': Table, client: string, integration: string, values: seq<Value>, firstId: nat)
    requires Numbered(values, client, integration, firstId) && Upserted(t, values, t')
    ensures ParentIds(t', client, integration, Returning(t', client, integration, values))
  {
    ReturnedIds(t', client, integration, values, firstId);
  }

  /** Each child value carries a parent id that this pass returned. */
  lemma ChildValuesLinked(client: string, integration: string, rows: seq<ChildIn>, parents: map<string, nat>,
                          firstId: nat)
    ensures var values := ChildValues(client, integration, rows, parents, firstId);
      && |values| == |Kept(rows, parents)|
      && Numbered(values, client, integration, firstId)
      && forall i | 0 <= i < |values| :: LinkedTo(values[i], client, integration, parents)
  {
    ChildValuesAre(client, integration, rows, parents, firstId);
    var values, kept := ChildValues(client, integration, rows, parents, firstId), Kept(rows, parents);
    forall i | 0 <= i < |values| ensures LinkedTo(values[i], client, integration, parents) {
      assert Str(kept[i].parentExternalId) in parents;
    }
  }

  lemma AdsKeep(s: Tables, client: string, integration: string, rows: seq<ChildIn>, parents: map<string, nat>)
    requires Consistent(s) && ParentIds(s.adSets, client, integration, parents)
    requires SyncAds(s, client, integration, rows, parents).Ok?
    ensures var (s', count) := SyncAds(s, client, integration, rows, parents).value;
      && Consistent(s') && AllSameIds(s, s')
      && Upserted(s.ads, ChildValues(client, integration, rows, parents, s.nextId), s'.ads)
      && s'.campaigns == s.campaigns && s'.adSets == s.adSets && count == |Kept(rows, parents)|
  {
    var values := ChildValues(client, integration, rows, parents, s.nextId);
    var t' := UpsertAll(s.ads, values);
    ChildValuesLinked(client, integration, rows, parents, s.nextId);
    hide UniqueIds, AllHaveParents, Upserted, SameIds, ParentIds, ChildValues, Kept, UpsertAll, Returning;
    UpsertAllUpserts(s.ads, values);
    UpsertedKeepsIds(s.ads, values, t');
    UpsertedUniqueIds(s.ads, values, t', client, integration, s.nextId);
    ChildrenHaveParents(s.ads, values, t', s.adSets, client, integration, parents);
    SameIdsSelf(s.campaigns);
    SameIdsSelf(s.adSets);
    LaterUniqueIds(s.campaigns, s.nextId, s.nextId + |values|);
    LaterUniqueIds(s.adSets, s.nextId, s.nextId + |values|);
  }

  /** A whole pass keeps parents valid and ids stable. */
  lemma PassKeeps(s: Tables, client: string, integration: string, batch: Batch)
    requires Consistent(s) && SyncPass(s, client, integration, batch).Ok?
    ensures var s' := SyncPass(s, client, integration, batch).value.0; Consistent(s') && AllSameIds(s, s')
  {
    hide Consistent, ParentIds, Upserted, SyncCampaigns, SyncAdSets, SyncAds;
    var (c, campaignIds) := SyncCampaigns(s, client, integration, batch.campaigns).value;
    CampaignsKeep(s, client, integration, batch.campaigns);
    var (a, adSetIds) := SyncAdSets(c, client, integration, batch.adSets, campaignIds).value;
    AdSetsKeep(c, client, integration, batch.adSets, campaignIds);
    AdsKeep(a, client, integration, batch.ads, adSetIds);
  }

  /** Exactly the rows whose parent is missing from the pass are skipped: the table after
      the pass holds each kept row's columns under the internal id of the parent it names,
      and every other row as it was. */
  ghost predicate ExactlyKept(t: Table, t': Table, parents: Table, client: string, integration: string,
                              kept: seq<ChildIn>) {
    && (forall i | 0 <= i < |kept| ::
          var k, p := UniqueKey(client, integration, kept[i].externalId),
              UniqueKey(client, integration, Str(kept[i].parentExternalId));
          k in t' && p in parents && t'[k].columns == kept[i].columns && t'[k].parentId == Some(parents[p].id))
    && (forall k | k in t' && (forall i | 0 <= i < |kept| :: UniqueKey(client, integration, kept[i].externalId) != k) ::
          k in t && t'[k] == t[k])
  }

  lemma UpsertedExactly(t: Table, t': Table, parents: Table, client: string, integration: string, rows: seq<ChildIn>,
                        ids: map<string, nat>, firstId: nat)
    requires Upserted(t, ChildValues(client, integration, rows, ids, firstId), t')
        && ParentIds(parents, client, integration, ids)
    ensures ExactlyKept(t, t', parents, client, integration, Kept(rows, ids))
  {
    ChildValuesAre(client, integration, rows, ids, firstId);
    var values, kept := ChildValues(client, integration, rows, ids, firstId), Kept(rows, ids);
    forall i | 0 <= i < |kept|
      ensures var k, p := UniqueKey(client, integration, kept[i].externalId),
          UniqueKey(client, integration, Str(kept[i].parentExternalId));
        k in t' && p in parents && t'[k].columns == kept[i].columns && t'[k].parentId == Some(parents[p].id)
    {
      assert values[i].key in t';
    }
    forall k | k in t' && (forall i | 0 <= i < |kept| :: UniqueKey(client, integration, kept[i].externalId) != k)
      ensures k in t && t'[k] == t[k]
    {
      assert forall i | 0 <= i < |values| :: values[i].key == UniqueKey(client, integration, kept[i].externalId);
    }
  }

  /** The pass holds each campaign's columns, and every other campaign as it was. */
  ghost predicate ExactlyCampaigns(t: Table, t': Table, client: string, integration: string, rows: seq<CampaignIn>) {
    && (forall i | 0 <= i < |rows| ::
          var k := UniqueKey(client, integration, rows[i].externalId);
          k in t' && t'[k].columns == rows[i].columns)
    && (forall k | k in t' && (forall i | 0 <= i < |rows| :: UniqueKey(client, integration, rows[i].externalId) != k) ::
          k in t && t'[k] == t[k])
  }

  lemma CampaignsExactly(t: Table, t': Table, client: string, integration: string, rows: seq<CampaignIn>, firstId: nat)
    requires Upserted(t, CampaignValues(client, integration, rows, firstId), t')
    ensures ExactlyCampaigns(t, t', client, integration, rows)
  {
    var values := CampaignValues(client, integration, rows, firstId);
    forall i | 0 <= i < |rows|
      ensures var k := UniqueKey(client, integration, rows[i].externalId); k in t' && t'[k].columns == rows[i].columns
    {
      assert values[i].key in t';
    }
    forall k | k in t' && (forall i | 0 <= i < |rows| :: UniqueKey(client, integration, rows[i].externalId) != k)
      ensures k in t && t'[k] == t[k]
    {
      assert forall i | 0 <= i < |values| :: values[i].key == UniqueKey(client, integration, rows[i].externalId);
    }
  }

  /** What a completed pass writes, by the ids its statements return. */
  lemma PassWrites(s: Tables, client: string, integration: string, batch: Batch)
    requires Consistent(s) && SyncPass(s, client, integration, batch).Ok?
    ensures var (s', counts) := SyncPass(s, client, integration, batch).value;
      exists campaignIds: map<string, nat>, adSetIds: map<string, nat> ::
        && IdsOf(campaignIds, CampaignNames(batch.campaigns))
        && IdsOf(adSetIds, ChildNames(Kept(batch.adSets, campaignIds)))
        && ParentIds(s'.campaigns, client, integration, campaignIds)
        && ParentIds(s'.adSets, client, integration, adSetIds)
        && ExactlyCampaigns(s.campaigns, s'.campaigns, client, integration, batch.campaigns)
        && ExactlyKept(s.adSets, s'.adSets, s'.campaigns, client, integration, Kept(batch.adSets, campaignIds))
        && ExactlyKept(s.ads, s'.ads, s'.adSets, client, integration, Kept(batch.ads, adSetIds))
        && counts == Counts(|batch.campaigns|, |Kept(batch.adSets, campaignIds)|, |Kept(batch.ads, adSetIds)|)
  {
    hide Consistent, ParentIds, Upserted, SyncCampaigns, SyncAdSets, SyncAds, ExactlyKept, ExactlyCampaigns, Kept;
    var (c, campaignIds) := SyncCampaigns(s, client, integration, batch.campaigns).value;
    CampaignsKeep(s, client, integration, batch.campaigns);
    var (a, adSetIds) := SyncAdSets(c, client, integration, batch.adSets, campaignIds).value;
    AdSetsKeep(c, client, integration, batch.adSets, campaignIds);
    AdsKeep(a, client, integration, batch.ads, adSetIds);
    var d := SyncAds(a, client, integration, batch.ads, adSetIds).value.0;
    CampaignsExactly(s.campaigns, d.campaigns, client, integration, batch.campaigns, s.nextId);
    UpsertedExactly(s.adSets, d.adSets, d.campaigns, client, integration, batch.adSets, campaignIds, c.nextId);
    UpsertedExactly(s.ads, d.ads, d.adSets, client, integration, batch.ads, adSetIds, a.nextId);
    IdCount(campaignIds, CampaignNames(batch.campaigns));
    IdCount(adSetIds, ChildNames(Kept(batch.adSets, campaignIds)));
    hide IdsOf;
  }

  lemma IdCount(ids: map<string, nat>, names: seq<string>)
    requires IdsOf(ids, names)
    ensures |ids| == |names|
  {
  }

  // ----- a pass, told by its batch alone -----

  /** The external id a row gives for its parent; a missing one reads "None". */
  predicate Names(parent: Option<string>, name: string) {
    if parent.Some? then parent.value == name else name == "None"
  }

  /** The ad sets of the batch whose campaign is in it. */
  ghost predicate AdSetSynced(batch: Batch, j: int) {
    0 <= j < |batch.adSets| &&
    exists i :: 0 <= i < |batch.campaigns| && Names(batch.adSets[j].parentExternalId, batch.campaigns[i].externalId)
  }

  /** The ads of the batch whose ad set is one of those. */
  ghost predicate AdSynced(batch: Batch, k: int) {
    0 <= k < |batch.ads| &&
    exists j :: AdSetSynced(batch, j) && Names(batch.ads[k].parentExternalId, batch.adSets[j].externalId)
  }

  /** No two rows that are to be written name the same object. */
  ghost predicate NoneTwice(batch: Batch) {
    && (forall i, j | 0 <= i < j < |batch.campaigns| :: batch.campaigns[i].externalId != batch.campaigns[j].externalId)
    && (forall i, j | 0 <= i < j < |batch.adSets| && AdSetSynced(batch, i) && AdSetSynced(batch, j) ::
          batch.adSets[i].externalId != batch.adSets[j].externalId)
    && (forall i, j | 0 <= i < j < |batch.ads| && AdSynced(batch, i) && AdSynced(batch, j) ::
          batch.ads[i].externalId != batch.ads[j].externalId)
  }

  /** The rows of a batch whose parent is known. */
  ghost function KnownRows(rows: seq<ChildIn>, parents: map<string, nat>): set<int> {
    set j | 0 <= j < |rows| && Str(rows[j].parentExternalId) in parents
  }

  ghost predicate NamesDiffer(rows: seq<ChildIn>, some: set<int>) {
    forall i, j | 0 <= i < j < |rows| && i in some && j in some :: rows[i].externalId != rows[j].externalId
  }

  lemma {:induction false} KeptAre(rows: seq<ChildIn>, parents: map<string, nat>)
    ensures |Kept(rows, parents)| == |KnownRows(rows, parents)|
    ensures forall r :: r in Kept(rows, parents) <==> exists j :: j in KnownRows(rows, parents) && rows[j] == r
    decreases |rows|
  {
    if rows != [] {
      var front, last := rows[..|rows| - 1], rows[|rows| - 1];
      KeptAre(front, parents);
      var before, after := KnownRows(front, parents), KnownRows(rows, parents);
      assert forall j | j in before :: front[j] == rows[j];
      assert after == if Str(last.parentExternalId) in parents then before + {|front|} else before;
      hide KnownRows;
      forall r ensures r in Kept(rows, parents) <==> exists j :: j in after && rows[j] == r {
        if Str(last.parentExternalId) in parents && r == last { assert |front| in after && rows[|front|] == r; }
        if j :| j in before && front[j] == r { assert j in after && rows[j] == r; }
        if j :| j in after && rows[j] == r {
          if j in before { assert front[j] == r; }
        }
      }
    }
  }

  /** One more row: it is written, or not, under a name none of those before it has. */
  lemma KnownOneMore(rows: seq<ChildIn>, parents: map<string, nat>)
    requires rows != []
    ensures var front, last := rows[..|rows| - 1], rows[|rows| - 1];
            var before, after := KnownRows(front, parents), KnownRows(rows, parents);
            && (Str(last.parentExternalId) !in parents ==>
                  (NamesDiffer(rows, after) <==> NamesDiffer(front, before)))
            && (Str(last.parentExternalId) in parents ==>
                  (NamesDiffer(rows, after) <==>
                    NamesDiffer(front, before) && forall j | j in before :: front[j].externalId != last.externalId))
  {
    var front, last := rows[..|rows| - 1], rows[|rows| - 1];
    var before, after := KnownRows(front, parents), KnownRows(rows, parents);
    assert forall j | 0 <= j < |front| :: front[j] == rows[j];
    assert forall j :: j in before <==> j in after && j < |front|;
  }

  lemma OneMoreKey(front: seq<Value>, v: Value)
    ensures DistinctKeys(front + [v]) <==> DistinctKeys(front) && forall i | 0 <= i < |front| :: front[i].key != v.key
  {
    var all := front + [v];
    if DistinctKeys(all) {
      forall i | 0 <= i < |front| ensures front[i].key != v.key { assert all[i].key != all[|front|].key; }
      forall i, j | 0 <= i < j < |front| ensures front[i].key != front[j].key { assert all[i].key != all[j].key; }
    }
  }

  lemma KeysOfKept(rows: seq<ChildIn>, parents: map<string, nat>, client: string, integration: string, firstId: nat,
                   name: string)
    ensures var values := ChildValues(client, integration, rows, parents, firstId);
            (exists i :: 0 <= i < |values| && values[i].key == UniqueKey(client, integration, name))
            <==> exists j :: j in KnownRows(rows, parents) && rows[j].externalId == name
  {
    KeptAre(rows, parents);
    ChildValuesAre(client, integration, rows, parents, firstId);
    var values, kept := ChildValues(client, integration, rows, parents, firstId), Kept(rows, parents);
    hide ChildValues, Kept;
    if i :| 0 <= i < |values| && values[i].key == UniqueKey(client, integration, name) {
      assert kept[i] in kept;
    }
    if j :| j in KnownRows(rows, parents) && rows[j].externalId == name {
      assert rows[j] in kept;
      var i :| 0 <= i < |kept| && kept[i] == rows[j];
      assert values[i].key == UniqueKey(client, integration, name);
    }
  }

  /** A child statement is refused exactly when two rows it is to write have one name. */
  lemma {:induction false} KeptDiffer(rows: seq<ChildIn>, parents: map<string, nat>, client: string,
                                      integration: string, firstId: nat)
    ensures DistinctKeys(ChildValues(client, integration, rows, parents, firstId))
       <==> NamesDiffer(rows, KnownRows(rows, parents))
    decreases |rows|
  {
    if rows != [] {
      var front, last := rows[..|rows| - 1], rows[|rows| - 1];
      KeptDiffer(front, parents, client, integration, firstId);
      KnownOneMore(rows, parents);
      if Str(last.parentExternalId) in parents {
        var values := ChildValues(client, integration, front, parents, firstId);
        var v := Value(UniqueKey(client, integration, last.externalId),
                       Row(firstId + |values|, Some(parents[Str(last.parentExternalId)]), last.columns));
        assert ChildValues(client, integration, rows, parents, firstId) == values + [v];
        OneMoreKey(values, v);
        KeysOfKept(front, parents, client, integration, firstId, last.externalId);
      }
    }
  }

  lemma CampaignsDiffer(client: string, integration: string, rows: seq<CampaignIn>, firstId: nat)
    ensures DistinctKeys(CampaignValues(client, integration, rows, firstId))
       <==> forall i, j | 0 <= i < j < |rows| :: rows[i].externalId != rows[j].externalId
  {
    var values := CampaignValues(client, integration, rows, firstId);
    assert forall i | 0 <= i < |rows| :: values[i].key == UniqueKey(client, integration, rows[i].externalId);
    if DistinctKeys(values) {
      forall i, j | 0 <= i < j < |rows| ensures rows[i].externalId != rows[j].externalId {
        assert values[i].key != values[j].key;
      }
    }
  }

  /** The ids a completed campaign statement returns, and those of an ad set statement. */
  lemma CampaignIds(s: Tables, client: string, integration: string, rows: seq<CampaignIn>)
    requires SyncCampaigns(s, client, integration, rows).Ok?
    ensures IdsOf(SyncCampaigns(s, client, integration, rows).value.1, CampaignNames(rows))
  {
    var values := CampaignValues(client, integration, rows, s.nextId);
    CampaignValuesAre(client, integration, rows, s.nextId);
    UpsertAllUpserts(s.campaigns, values);
    hide Upserted, IdsOf, Named, Numbered, CampaignValues, Returning, UpsertAll;
    ReturnedIdsOf(s.campaigns, UpsertAll(s.campaigns, values), client, integration, values, CampaignNames(rows),
                  s.nextId);
  }

  lemma AdSetIds(s: Tables, client: string, integration: string, rows: seq<ChildIn>, parents: map<string, nat>)
    requires SyncAdSets(s, client, integration, rows, parents).Ok?
    ensures IdsOf(SyncAdSets(s, client, integration, rows, parents).value.1, ChildNames(Kept(rows, parents)))
  {
    var values := ChildValues(client, integration, rows, parents, s.nextId);
    ChildValuesAre(client, integration, rows, parents, s.nextId);
    ChildValuesNamed(client, integration, rows, parents, s.nextId);
    UpsertAllUpserts(s.adSets, values);
    hide Upserted, IdsOf, Named, Numbered, ChildValues, Returning, UpsertAll, Kept;
    ReturnedIdsOf(s.adSets, UpsertAll(s.adSets, values), client, integration, values, ChildNames(Kept(rows, parents)),
                  s.nextId);
  }

  /** The known rows are the synced ones. */
  lemma AdSetsKnown(batch: Batch, ids: map<string, nat>)
    requires IdsOf(ids, CampaignNames(batch.campaigns))
    ensures forall j :: j in KnownRows(batch.adSets, ids) <==> AdSetSynced(batch, j)
  {
    var names := CampaignNames(batch.campaigns);
    forall j ensures j in KnownRows(batch.adSets, ids) <==> AdSetSynced(batch, j) {
      if j in KnownRows(batch.adSets, ids) {
        var i :| 0 <= i < |names| && names[i] == Str(batch.adSets[j].parentExternalId);
        assert Names(batch.adSets[j].parentExternalId, batch.campaigns[i].externalId);
      }
      if AdSetSynced(batch, j) {
        var i :| 0 <= i < |batch.campaigns|
            && Names(batch.adSets[j].parentExternalId, batch.campaigns[i].externalId);
        assert names[i] == Str(batch.adSets[j].parentExternalId);
      }
    }
  }

  /** The names of the kept ad sets are those of the synced ones. */
  lemma KeptNames(batch: Batch, campaignIds: map<string, nat>, name: string)
    requires IdsOf(campaignIds, CampaignNames(batch.campaigns))
    ensures var names := ChildNames(Kept(batch.adSets, campaignIds));
            (exists i :: 0 <= i < |names| && names[i] == name)
            <==> exists j :: AdSetSynced(batch, j) && batch.adSets[j].externalId == name
  {
    var kept := Kept(batch.adSets, campaignIds);
    var names := ChildNames(kept);
    AdSetsKnown(batch, campaignIds);
    KeptAre(batch.adSets, campaignIds);
    hide Kept, AdSetSynced, IdsOf;
    if i :| 0 <= i < |names| && names[i] == name {
      assert kept[i] in kept;
      var j :| j in KnownRows(batch.adSets, campaignIds) && batch.adSets[j] == kept[i];
      assert AdSetSynced(batch, j);
    }
    if j :| j in KnownRows(batch.adSets, campaignIds) && batch.adSets[j].externalId == name {
      assert batch.adSets[j] in kept;
      var i :| 0 <= i < |kept| && kept[i] == batch.adSets[j];
      assert names[i] == name;
    }
  }

  lemma AdsKnown(batch: Batch, campaignIds: map<string, nat>, ids: map<string, nat>)
    requires IdsOf(campaignIds, CampaignNames(batch.campaigns))
    requires IdsOf(ids, ChildNames(Kept(batch.adSets, campaignIds)))
    ensures forall k :: k in KnownRows(batch.ads, ids) <==> AdSynced(batch, k)
  {
    forall k ensures k in KnownRows(batch.ads, ids) <==> AdSynced(batch, k) {
      if 0 <= k < |batch.ads| {
        var name := Str(batch.ads[k].parentExternalId);
        KeptNames(batch, campaignIds, name);
        assert name in ids <==>
          exists i :: 0 <= i < |ChildNames(Kept(batch.adSets, campaignIds))|
                      && ChildNames(Kept(batch.adSets, campaignIds))[i] == name;
        hide Kept, AdSetSynced, IdsOf, ChildNames;
        if j :| AdSetSynced(batch, j) && batch.adSets[j].externalId == name {
          assert Names(batch.ads[k].parentExternalId, batch.adSets[j].externalId);
        }
      }
    }
  }

  /** A pass goes through exactly when no campaign, no ad set whose campaign is in the batch and no ad
      whose ad set is one of those comes twice, whatever is stored already. */
  lemma PassSucceedsIff(s: Tables, client: string, integration: string, batch: Batch)
    ensures SyncPass(s, client, integration, batch).Ok? <==> NoneTwice(batch)
  {
    hide DistinctKeys, CampaignValues, ChildValues, UpsertAll, Returning, IdsOf, Kept, KnownRows, NamesDiffer,
        AdSetSynced, AdSynced;
    CampaignsDiffer(client, integration, batch.campaigns, s.nextId);
    if SyncCampaigns(s, client, integration, batch.campaigns).Ok? {
      var (c, ids) := SyncCampaigns(s, client, integration, batch.campaigns).value;
      CampaignIds(s, client, integration, batch.campaigns);
      AdSetsKnown(batch, ids);
      KeptDiffer(batch.adSets, ids, client, integration, c.nextId);
      SyncedDiffer(batch, ids);
      if SyncAdSets(c, client, integration, batch.adSets, ids).Ok? {
        var (d, adSetIds) := SyncAdSets(c, client, integration, batch.adSets, ids).value;
        AdSetIds(c, client, integration, batch.adSets, ids);
        AdsKnown(batch, ids, adSetIds);
        KeptDiffer(batch.ads, adSetIds, client, integration, d.nextId);
        SyncedAdsDiffer(batch, adSetIds);
      }
    }
  }

  lemma SyncedDiffer(batch: Batch, ids: map<string, nat>)
    requires forall j :: j in KnownRows(batch.adSets, ids) <==> AdSetSynced(batch, j)
    ensures NamesDiffer(batch.adSets, KnownRows(batch.adSets, ids)) <==>
      forall i, j | 0 <= i < j < |batch.adSets| && AdSetSynced(batch, i) && AdSetSynced(batch, j) ::
        batch.adSets[i].externalId != batch.adSets[j].externalId
  {
    hide KnownRows, AdSetSynced;
  }

  lemma SyncedAdsDiffer(batch: Batch, ids: map<string, nat>)
    requires forall k :: k in KnownRows(batch.ads, ids) <==> AdSynced(batch, k)
    ensures NamesDiffer(batch.ads, KnownRows(batch.ads, ids)) <==>
      forall i, j | 0 <= i < j < |batch.ads| && AdSynced(batch, i) && AdSynced(batch, j) ::
        batch.ads[i].externalId != batch.ads[j].externalId
  {
    hide KnownRows, AdSynced;
  }

  ghost function SyncedAdSets(batch: Batch): set<int> {
    set j | 0 <= j < |batch.adSets| && AdSetSynced(batch, j)
  }

  ghost function SyncedAds(batch: Batch): set<int> {
    set k | 0 <= k < |batch.ads| && AdSynced(batch, k)
  }

  /** The rows `some` are stored with their columns, each under the parent of this client and platform
      that it names, and every other row is stored as it was. */
  ghost predicate WrittenExactly(t: Table, t': Table, parents: Table, client: string, integration: string,
                                 rows: seq<ChildIn>, some: set<int>) {
    && (forall j | j in some && 0 <= j < |rows| :: Written(t', parents, client, integration, rows[j]))
    && (forall k | k in t' :: !NamesOne(k, client, integration, rows, some) ==> k in t && t'[k] == t[k])
    && (forall k | k in t :: k in t')
  }

  ghost predicate Written(t': Table, parents: Table, client: string, integration: string, row: ChildIn) {
    var k := UniqueKey(client, integration, row.externalId);
    && k in t' && t'[k].columns == row.columns
    && exists name :: Names(row.parentExternalId, name) && UniqueKey(client, integration, name) in parents
                      && t'[k].parentId == Some(parents[UniqueKey(client, integration, name)].id)
  }

  ghost predicate NamesOne(k: UniqueKey, client: string, integration: string, rows: seq<ChildIn>, some: set<int>) {
    exists j :: j in some && 0 <= j < |rows| && k == UniqueKey(client, integration, rows[j].externalId)
  }

  lemma KeptWritten(t: Table, t': Table, parents: Table, client: string, integration: string, rows: seq<ChildIn>,
                    ids: map<string, nat>, some: set<int>)
    requires ExactlyKept(t, t', parents, client, integration, Kept(rows, ids)) && SameIds(t, t')
    requires some == KnownRows(rows, ids)
    ensures WrittenExactly(t, t', parents, client, integration, rows, some)
  {
    var kept := Kept(rows, ids);
    KeptAre(rows, ids);
    hide Kept;
    forall j | j in some && 0 <= j < |rows| ensures Written(t', parents, client, integration, rows[j]) {
      assert rows[j] in kept;
      var i :| 0 <= i < |kept| && kept[i] == rows[j];
      assert Names(rows[j].parentExternalId, Str(kept[i].parentExternalId));
    }
    hide Written;
    forall k | k in t' && !NamesOne(k, client, integration, rows, some) ensures k in t && t'[k] == t[k] {
      forall i | 0 <= i < |kept| ensures UniqueKey(client, integration, kept[i].externalId) != k {
        assert kept[i] in kept;
        var j :| j in KnownRows(rows, ids) && rows[j] == kept[i];
      }
    }
  }

  /** What a pass writes, told by its batch alone, row by row and with its counts: every campaign, the ad
      sets whose campaign is part of the pass, and the ads whose ad set is one of those. A parent stored
      by an earlier pass does not count. */
  lemma PassSkipsExactly(s: Tables, client: string, integration: string, batch: Batch)
    requires Consistent(s) && SyncPass(s, client, integration, batch).Ok?
    ensures var (s', counts) := SyncPass(s, client, integration, batch).value;
      && ExactlyCampaigns(s.campaigns, s'.campaigns, client, integration, batch.campaigns)
      && WrittenExactly(s.adSets, s'.adSets, s'.campaigns, client, integration, batch.adSets, SyncedAdSets(batch))
      && WrittenExactly(s.ads, s'.ads, s'.adSets, client, integration, batch.ads, SyncedAds(batch))
      && counts == Counts(|batch.campaigns|, |SyncedAdSets(batch)|, |SyncedAds(batch)|)
  {
    hide Consistent, SyncPass, IdsOf, ParentIds, ExactlyCampaigns, ExactlyKept, WrittenExactly, Kept, KnownRows,
        AdSetSynced, AdSynced;
    PassWrites(s, client, integration, batch);
    PassKeeps(s, client, integration, batch);
    var (s', counts) := SyncPass(s, client, integration, batch).value;
    var campaignIds, adSetIds :|
      && IdsOf(campaignIds, CampaignNames(batch.campaigns))
      && IdsOf(adSetIds, ChildNames(Kept(batch.adSets, campaignIds)))
      && ExactlyKept(s.adSets, s'.adSets, s'.campaigns, client, integration, Kept(batch.adSets, campaignIds))
      && ExactlyKept(s.ads, s'.ads, s'.adSets, client, integration, Kept(batch.ads, adSetIds))
      && counts == Counts(|batch.campaigns|, |Kept(batch.adSets, campaignIds)|, |Kept(batch.ads, adSetIds)|);
    AdSetsKnown(batch, campaignIds);
    AdsKnown(batch, campaignIds, adSetIds);
    KeptAre(batch.adSets, campaignIds);
    KeptAre(batch.ads, adSetIds);
    SyncedSets(batch, campaignIds, adSetIds);
    KeptWritten(s.adSets, s'.adSets, s'.campaigns, client, integration, batch.adSets, campaignIds, SyncedAdSets(batch));
    KeptWritten(s.ads, s'.ads, s'.adSets, client, integration, batch.ads, adSetIds, SyncedAds(batch));
  }

  lemma SyncedSets(batch: Batch, campaignIds: map<string, nat>, adSetIds: map<string, nat>)
    requires forall j :: j in KnownRows(batch.adSets, campaignIds) <==> AdSetSynced(batch, j)
    requires forall k :: k in KnownRows(batch.ads, adSetIds) <==> AdSynced(batch, k)
    ensures SyncedAdSets(batch) == KnownRows(batch.adSets, campaignIds)
    ensures SyncedAds(batch) == KnownRows(batch.ads, adSetIds)
  {
    hide AdSynced;
    forall j | AdSetSynced(batch, j) ensures 0 <= j < |batch.adSets| {}
    hide AdSetSynced;
  }

  // ----- runs -----

  datatype Pass = Pass(client: string, integration: string, batch: Batch)

  /** A failing pass is rolled back. */
  function AfterPass(s: Tables, p: Pass): Tables {
    match SyncPass(s, p.client, p.integration, p.batch)
    case CardinalityViolation => s
    case Ok(next) => next.0
  }

  function AfterPasses(s: Tables, passes: seq<Pass>): Tables
    decreases |passes|
  {
    if passes == [] then s else AfterPasses(AfterPass(s, passes[0]), passes[1..])
  }

  /** Over any sequence of passes, for any clients and platforms, every parent id points at
      an existing row of the same client and platform, and no row ever changes its id. */
  lemma {:induction false} EverySequenceOfPasses(s: Tables, passes: seq<Pass>)
    requires Consistent(s)
    ensures Consistent(AfterPasses(s, passes)) && AllSameIds(s, AfterPasses(s, passes))
    decreases |passes|
  {
    hide Consistent, SyncPass;
    if passes == [] {
      SameIdsSelf(s.campaigns);
      SameIdsSelf(s.adSets);
      SameIdsSelf(s.ads);
    } else {
      var p, s1 := passes[0], AfterPass(s, passes[0]);
      if SyncPass(s, p.client, p.integration, p.batch).Ok? {
        PassKeeps(s, p.client, p.integration, p.batch);
      }
      EverySequenceOfPasses(s1, passes[1..]);
    }
  }

  /** Starting from empty tables, which is where every database starts. */
  lemma EveryRunOfPasses(passes: seq<Pass>)
    ensures Consistent(AfterPasses(Tables(map[], map[], map[], 0), passes))
    ensures forall n | 0 <= n <= |passes| ::
              AllSameIds(AfterPasses(Tables(map[], map[], map[], 0), passes[..n]),
                         AfterPasses(Tables(map[], map[], map[], 0), passes))
  {
    var empty := Tables(map[], map[], map[], 0);
    EmptyConsistent();
    EverySequenceOfPasses(empty, passes);
    forall n | 0 <= n <= |passes| ensures AllSameIds(AfterPasses(empty, passes[..n]), AfterPasses(empty, passes)) {
      EverySequenceOfPasses(empty, passes[..n]);
      AfterSplit(empty, passes, n);
      EverySequenceOfPasses(AfterPasses(empty, passes[..n]), passes[n..]);
    }
  }

  lemma {:induction false} AfterSplit(s: Tables, passes: seq<Pass>, n: nat)
    requires n <= |passes|
    ensures AfterPasses(s, passes) == AfterPasses(AfterPasses(s, passes[..n]), passes[n..])
    decreases n
  {
    hide AfterPass;
    if n == 0 {
      assert passes[0..] == passes;
    } else {
      AfterSplit(AfterPass(s, passes[0]), passes[1..], n - 1);
      assert passes[..n][1..] == passes[1..][..n - 1] && passes[1..][n - 1..] == passes[n..];
    }
  }

  lemma EmptyConsistent()
    ensures Consistent(Tables(map[], map[], map[], 0))
  {
  }
}
