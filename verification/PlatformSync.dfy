/** Syncing one provider's hierarchy: campaigns, then ad sets, then ads, each in one
    upsert statement whose returned ids the next level links against. */
module PlatformSync {
  import opened Wrappers

  /** The unique constraint of each of the three tables. */
  datatype UniqueKey = UniqueKey(client: string, integration: string, externalId: string)

  /** `columns` stands for everything an upsert overwrites besides the parent. */
  datatype Row = Row(id: nat, parentId: Option<nat>, columns: string)

  type Table = map<UniqueKey, Row>

  /** The database: `nextId` stands for the supply of fresh uuids. */
  datatype Tables = Tables(campaigns: Table, adSets: Table, ads: Table, nextId: nat)

  datatype CampaignIn = CampaignIn(externalId: string, columns: string)

  datatype ChildIn = ChildIn(externalId: string, parentExternalId: Option<string>, columns: string)

  datatype Value = Value(key: UniqueKey, row: Row)

  /** `ON CONFLICT DO UPDATE` cannot touch one row twice. */
  datatype Result<T> = Ok(value: T) | CardinalityViolation

  // ----- one upsert statement -----

  predicate DistinctKeys(values: seq<Value>) {
    forall i, j | 0 <= i < j < |values| :: values[i].key != values[j].key
  }

  function UpsertOne(t: Table, v: Value): Table {
    t[v.key := if v.key in t then v.row.(id := t[v.key].id) else v.row]
  }

  function UpsertAll(t: Table, values: seq<Value>): Table {
    if values == [] then t else UpsertOne(UpsertAll(t, values[..|values| - 1]), values[|values| - 1])
  }

  function Statement(t: Table, values: seq<Value>): Result<Table> {
    if DistinctKeys(values) then Ok(UpsertAll(t, values)) else CardinalityViolation
  }

  /** `RETURNING external_id, id`. */
  function Returning(t: Table, client: string, integration: string, values: seq<Value>): map<string, nat> {
    map i | 0 <= i < |values| && values[i].key in t
        && values[i].key == UniqueKey(client, integration, values[i].key.externalId)
      :: values[i].key.externalId := t[values[i].key].id
  }

  // ----- the values of a batch -----

  function CampaignValues(client: string, integration: string, rows: seq<CampaignIn>, firstId: nat): (v: seq<Value>)
    ensures |v| == |rows|
  {
    seq(|rows|, i requires 0 <= i < |rows| =>
      Value(UniqueKey(client, integration, rows[i].externalId), Row(firstId + i, None, rows[i].columns)))
  }

  /** `str(...)` of a possibly missing id. */
  function Str(id: Option<string>): string {
    match id case Some(text) => text case None => "None"
  }

  /** The rows whose parent was synced in this pass. */
  function Kept(rows: seq<ChildIn>, parents: map<string, nat>): seq<ChildIn> {
    if rows == [] then []
    else if Str(rows[|rows| - 1].parentExternalId) in parents then
      Kept(rows[..|rows| - 1], parents) + [rows[|rows| - 1]]
    else Kept(rows[..|rows| - 1], parents)
  }

  function ChildValues(client: string, integration: string, rows: seq<ChildIn>, parents: map<string, nat>,
                       firstId: nat): seq<Value> {
    if rows == [] then []
    else
      var front, r := ChildValues(client, integration, rows[..|rows| - 1], parents, firstId), rows[|rows| - 1];
      if Str(r.parentExternalId) in parents then
        front + [Value(UniqueKey(client, integration, r.externalId),
                       Row(firstId + |front|, Some(parents[Str(r.parentExternalId)]), r.columns))]
      else front
  }

  // ----- one sync pass -----

  datatype Batch = Batch(campaigns: seq<CampaignIn>, adSets: seq<ChildIn>, ads: seq<ChildIn>)

  datatype Counts = Counts(campaigns: nat, adSets: nat, ads: nat)

  function SyncCampaigns(s: Tables, client: string, integration: string, rows: seq<CampaignIn>)
    : Result<(Tables, map<string, nat>)>
  {
    var values := CampaignValues(client, integration, rows, s.nextId);
    match Statement(s.campaigns, values)
    case CardinalityViolation => CardinalityViolation
    case Ok(t) => Ok((s.(campaigns := t, nextId := s.nextId + |values|), Returning(t, client, integration, values)))
  }

  function SyncAdSets(s: Tables, client: string, integration: string, rows: seq<ChildIn>, parents: map<string, nat>)
    : Result<(Tables, map<string, nat>)>
  {
    var values := ChildValues(client, integration, rows, parents, s.nextId);
    match Statement(s.adSets, values)
    case CardinalityViolation => CardinalityViolation
    case Ok(t) => Ok((s.(adSets := t, nextId := s.nextId + |values|), Returning(t, client, integration, values)))
  }

  function SyncAds(s: Tables, client: string, integration: string, rows: seq<ChildIn>, parents: map<string, nat>)
    : Result<(Tables, nat)>
  {
    var values := ChildValues(client, integration, rows, parents, s.nextId);
    match Statement(s.ads, values)
    case CardinalityViolation => CardinalityViolation
    case Ok(t) => Ok((s.(ads := t, nextId := s.nextId + |values|), |values|))
  }

  function SyncPass(s: Tables, client: string, integration: string, batch: Batch): Result<(Tables, Counts)> {
    match SyncCampaigns(s, client, integration, batch.campaigns)
    case CardinalityViolation => CardinalityViolation
    case Ok(c) =>
      match SyncAdSets(c.0, client, integration, batch.adSets, c.1)
      case CardinalityViolation => CardinalityViolation
      case Ok(a) =>
        match SyncAds(a.0, client, integration, batch.ads, a.1)
        case CardinalityViolation => CardinalityViolation
        case Ok(d) => Ok((d.0, Counts(|c.1|, |a.1|, d.1)))
  }

  // ----- the repository -----

  class PlatformInsightRepository {
    var campaigns: Table
    var adSets: Table
    var ads: Table
    var nextId: nat

    ghost function State(): Tables
      reads this
    {
      Tables(campaigns, adSets, ads, nextId)
    }

    constructor ()
      ensures State() == Tables(map[], map[], map[], 0)
    {
      campaigns, adSets, ads, nextId := map[], map[], map[], 0;
    }

    static method Execute(t: Table, values: seq<Value>) returns (r: Result<Table>)
      ensures r == Statement(t, values)
    {
      if !DistinctKeys(values) {
        return CardinalityViolation;
      }
      var table := t;
      for i := 0 to |values|
        invariant table == UpsertAll(t, values[..i])
      {
        assert values[..i + 1][..i] == values[..i];
        if values[i].key in table {
          table := table[values[i].key := values[i].row.(id := table[values[i].key].id)];
        } else {
          table := table[values[i].key := values[i].row];
        }
      }
      assert values[..|values|] == values;
      return Ok(table);
    }

    static method ChildBatch(client: string, integration: string, rows: seq<ChildIn>, parents: map<string, nat>,
                             firstId: nat)
        returns (values: seq<Value>)
      ensures values == ChildValues(client, integration, rows, parents, firstId)
    {
      values := [];
      for i := 0 to |rows|
        invariant values == ChildValues(client, integration, rows[..i], parents, firstId)
      {
        assert rows[..i + 1][..i] == rows[..i];
        var parent := Str(rows[i].parentExternalId);
        if parent !in parents {
          continue;
        }
        values := values + [Value(UniqueKey(client, integration, rows[i].externalId),
                                  Row(firstId + |values|, Some(parents[parent]), rows[i].columns))];
      }
      assert rows[..|rows|] == rows;
    }

    method UpsertCampaigns(client: string, integration: string, rows: seq<CampaignIn>)
        returns (r: Result<map<string, nat>>)
      modifies this
      ensures match SyncCampaigns(old(State()), client, integration, rows)
              case CardinalityViolation => r == CardinalityViolation && State() == old(State())
              case Ok(next) => r == Ok(next.1) && State() == next.0
    {
      if rows == [] {
        return Ok(map[]);
      }
      var values := CampaignValues(client, integration, rows, nextId);
      var executed := Execute(campaigns, values);
      if executed.CardinalityViolation? {
        return CardinalityViolation;
      }
      campaigns, nextId := executed.value, nextId + |values|;
      return Ok(Returning(campaigns, client, integration, values));
    }

    method UpsertAdSets(client: string, integration: string, rows: seq<ChildIn>, campaignIds: map<string, nat>)
        returns (r: Result<map<string, nat>>)
      modifies this
      ensures match SyncAdSets(old(State()), client, integration, rows, campaignIds)
              case CardinalityViolation => r == CardinalityViolation && State() == old(State())
              case Ok(next) => r == Ok(next.1) && State() == next.0
    {
      if rows == [] {
        return Ok(map[]);
      }
      var values := ChildBatch(client, integration, rows, campaignIds, nextId);
      if values == [] {
        return Ok(map[]);
      }
      var executed := Execute(adSets, values);
      if executed.CardinalityViolation? {
        return CardinalityViolation;
      }
      adSets, nextId := executed.value, nextId + |values|;
      return Ok(Returning(adSets, client, integration, values));
    }

    method UpsertAds(client: string, integration: string, rows: seq<ChildIn>, adSetIds: map<string, nat>)
        returns (r: Result<nat>)
      modifies this
      ensures match SyncAds(old(State()), client, integration, rows, adSetIds)
              case CardinalityViolation => r == CardinalityViolation && State() == old(State())
              case Ok(next) => r == Ok(next.1) && State() == next.0
    {
      if rows == [] {
        return Ok(0);
      }
      var values := ChildBatch(client, integration, rows, adSetIds, nextId);
      if values == [] {
        return Ok(0);
      }
      var executed := Execute(ads, values);
      if executed.CardinalityViolation? {
        return CardinalityViolation;
      }
      ads, nextId := executed.value, nextId + |values|;
      return Ok(|values|);
    }

    /** One pass in one transaction: a failing statement leaves the tables as they were. */
    method Sync(client: string, integration: string, batch: Batch) returns (r: Result<Counts>)
      modifies this
      ensures match SyncPass(old(State()), client, integration, batch)
              case CardinalityViolation => r == CardinalityViolation && State() == old(State())
              case Ok(next) => r == Ok(next.1) && State() == next.0
    {
      hide SyncCampaigns, SyncAdSets, SyncAds;
      var begun := (campaigns, adSets, ads, nextId);
      var campaignIds := UpsertCampaigns(client, integration, batch.campaigns);
      if campaignIds.CardinalityViolation? {
        return CardinalityViolation;
      }
      var adSetIds := UpsertAdSets(client, integration, batch.adSets, campaignIds.value);
      if adSetIds.CardinalityViolation? {
        campaigns, adSets, ads, nextId := begun.0, begun.1, begun.2, begun.3;
        return CardinalityViolation;
      }
      var adsCount := UpsertAds(client, integration, batch.ads, adSetIds.value);
      if adsCount.CardinalityViolation? {
        campaigns, adSets, ads, nextId := begun.0, begun.1, begun.2, begun.3;
        return CardinalityViolation;
      }
      return Ok(Counts(|campaignIds.value|, |adSetIds.value|, adsCount.value));
    }
  }
}
