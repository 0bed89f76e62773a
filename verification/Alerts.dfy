/** Alert reconciliation for one client: an evaluation pass diffs the live alerts with
    fresh findings; operators acknowledge and resolve in between. */
module Alerts {
  import opened Wrappers
  import opened Findings

  datatype Status = Open | Acknowledged | Resolved

  /** `recKey` is empty for an alert without one. */
  datatype Alert = Alert(
    campaignId: string,
    kind: Kind,
    severity: Severity,
    status: Status,
    metric: string,
    threshold: real,
    actual: real,
    recKey: string,
    acknowledgedBy: Option<string>,
    resolvedBy: Option<string>)

  /** The client's rows by id. */
  type Rows = map<nat, Alert>

  datatype Table = Table(rows: Rows, nextId: nat) {
    ghost predicate Valid() {
      forall id | id in rows :: id < nextId
    }
  }

  predicate Live(a: Alert) {
    a.status != Resolved
  }

  function LiveIds(rows: Rows): set<nat> {
    set id | id in rows && Live(rows[id])
  }

  function LiveKeys(rows: Rows): set<string> {
    set id | id in rows && Live(rows[id]) && rows[id].recKey != "" :: rows[id].recKey
  }

  function KeysOf(findings: seq<Finding>): set<string> {
    if findings == [] then {} else KeysOf(findings[..|findings| - 1]) + {findings[|findings| - 1].recKey}
  }

  /** `{a.rec_key: a for a in live if a.rec_key}` for some order of the rows. */
  ghost predicate IsLiveIndex(live: map<string, nat>, rows: Rows) {
    && live.Keys == LiveKeys(rows)
    && forall k | k in live :: live[k] in rows && Live(rows[live[k]]) && rows[live[k]].recKey == k
  }

  /** Every indexed row exists. */
  predicate Indexes(live: map<string, nat>, rows: Rows) {
    forall k | k in live :: live[k] in rows
  }

  // ----- one pass -----

  function Refreshed(a: Alert, f: Finding): Alert {
    a.(severity := f.severity, metric := f.metric, threshold := f.threshold, actual := f.actual, kind := f.kind)
  }

  function Opened(f: Finding): Alert {
    Alert(f.campaignId, f.kind, f.severity, Open, f.metric, f.threshold, f.actual, f.recKey, None, None)
  }

  function ApplyFinding(t: Table, live: map<string, nat>, f: Finding): Table {
    if f.recKey in live && live[f.recKey] in t.rows then
      t.(rows := t.rows[live[f.recKey] := Refreshed(t.rows[live[f.recKey]], f)])
    else Table(t.rows[t.nextId := Opened(f)], t.nextId + 1)
  }

  function ApplyFindings(t: Table, live: map<string, nat>, findings: seq<Finding>): Table {
    if findings == [] then t
    else ApplyFinding(ApplyFindings(t, live, findings[..|findings| - 1]), live, findings[|findings| - 1])
  }

  lemma ApplyFindingsStep(t: Table, live: map<string, nat>, findings: seq<Finding>, i: nat)
    requires i < |findings|
    ensures ApplyFindings(t, live, findings[..i + 1])
        == ApplyFinding(ApplyFindings(t, live, findings[..i]), live, findings[i])
  {
    assert findings[..i + 1][..i] == findings[..i];
  }

  /** The indexed row of a key that no finding has any more. */
  predicate Stale(live: map<string, nat>, seen: set<string>, id: nat, a: Alert) {
    a.recKey in live && live[a.recKey] == id && a.recKey !in seen
  }

  function ResolveStaleRows(rows: Rows, live: map<string, nat>, seen: set<string>): Rows {
    map id | id in rows :: if Stale(live, seen, id, rows[id]) then rows[id].(status := Resolved) else rows[id]
  }

  function Evaluated(t: Table, live: map<string, nat>, findings: seq<Finding>): Table {
    var applied := ApplyFindings(t, live, findings);
    applied.(rows := ResolveStaleRows(applied.rows, live, KeysOf(findings)))
  }

  datatype EvaluateResult = EvaluateResult(evaluatedCampaigns: nat, raised: nat, updated: nat, autoResolved: nat,
                                           alerts: set<nat>)

  class AlertService {
    var rows: Rows
    var nextId: nat

    ghost function State(): Table
      reads this
    {
      Table(rows, nextId)
    }

    constructor ()
      ensures State() == Table(map[], 0)
    {
      rows, nextId := map[], 0;
    }

    method Acknowledge(id: nat, actor: string) returns (found: bool)
      modifies this`rows
      ensures found == (id in old(rows))
      ensures rows ==
        if found then old(rows)[id := old(rows)[id].(status := Acknowledged, acknowledgedBy := Some(actor))]
        else old(rows)
    {
      if id !in rows {
        return false;
      }
      rows := rows[id := rows[id].(status := Acknowledged, acknowledgedBy := Some(actor))];
      return true;
    }

    method Resolve(id: nat, actor: string) returns (found: bool)
      modifies this`rows
      ensures found == (id in old(rows))
      ensures rows ==
        if found then old(rows)[id := old(rows)[id].(status := Resolved, resolvedBy := Some(actor))]
        else old(rows)
    {
      if id !in rows {
        return false;
      }
      rows := rows[id := rows[id].(status := Resolved, resolvedBy := Some(actor))];
      return true;
    }

    /** The dict of live alerts by key; which row wins for a repeated key is open. */
    static method IndexLive(rows: Rows) returns (live: map<string, nat>)
      ensures IsLiveIndex(live, rows)
    {
      live := map[];
      var todo := LiveIds(rows);
      while todo != {}
        invariant todo <= LiveIds(rows)
        invariant forall k | k in live :: live[k] in rows && Live(rows[live[k]]) && rows[live[k]].recKey == k && k != ""
        invariant forall id | id in LiveIds(rows) && id !in todo && rows[id].recKey != "" :: rows[id].recKey in live
      {
        var id :| id in todo;
        if rows[id].recKey != "" {
          live := live[rows[id].recKey := id];
        }
        todo := todo - {id};
      }
    }

    method Evaluate(campaigns: seq<Campaign>) returns (result: EvaluateResult, ghost live: map<string, nat>)
      requires State().Valid() && DistinctIds(campaigns)
      modifies this
      ensures IsLiveIndex(live, old(rows))
      ensures State() == Evaluated(old(State()), live, AllFindings(campaigns))
      ensures result.evaluatedCampaigns == |campaigns|
      ensures result.raised == |KeysOf(AllFindings(campaigns)) - live.Keys|
      ensures result.updated == |KeysOf(AllFindings(campaigns)) * live.Keys|
      ensures result.autoResolved == |live.Keys - KeysOf(AllFindings(campaigns))|
      ensures result.alerts == set id | id in rows && rows[id].status == Open
    {
      var index := IndexLive(rows);
      live := index;
      var findings := CollectFindings(campaigns);
      FindingKeysDistinct(campaigns);
      ApplyKeepsKeys(State(), index, findings);
      hide KeysOf, AllFindings, ApplyFindings, LiveKeys;
      var raised, updated := ApplyAll(index, findings);
      var autoResolved := ResolveStale(index, KeysOf(findings));
      result := EvaluateResult(|campaigns|, raised, updated, autoResolved,
                               set id | id in rows && rows[id].status == Open);
    }

    static method CollectFindings(campaigns: seq<Campaign>) returns (findings: seq<Finding>)
      ensures findings == AllFindings(campaigns)
    {
      findings := [];
      for i := 0 to |campaigns|
        invariant findings == AllFindings(campaigns[..i])
      {
        assert campaigns[..i + 1][..i] == campaigns[..i];
        findings := findings + FindingsFor(campaigns[i]);
      }
      assert campaigns[..|campaigns|] == campaigns;
    }

    /** Refresh the live alert of a finding, or open a new one. */
    method ApplyOne(live: map<string, nat>, f: Finding) returns (known: bool)
      requires Indexes(live, rows)
      modifies this
      ensures State() == ApplyFinding(old(State()), live, f) && Indexes(live, rows)
      ensures known == (f.recKey in live)
    {
      known := f.recKey in live;
      if known {
        rows := rows[live[f.recKey] := Refreshed(rows[live[f.recKey]], f)];
      } else {
        rows := rows[nextId := Opened(f)];
        nextId := nextId + 1;
      }
    }

    method ApplyAll(live: map<string, nat>, findings: seq<Finding>) returns (raised: nat, updated: nat)
      requires State().Valid() && IsLiveIndex(live, rows) && DistinctKeys(findings)
      modifies this
      ensures State() == ApplyFindings(old(State()), live, findings)
      ensures raised == |KeysOf(findings) - live.Keys| && updated == |KeysOf(findings) * live.Keys|
    {
      raised, updated := 0, 0;
      TallyStart(findings, live.Keys);
      assert ApplyFindings(State(), live, findings[..0]) == State();
      assert Indexes(live, rows);
      hide KeysOf, ApplyFindings, ApplyFinding, DistinctKeys, IsLiveIndex, Indexes, Tally, LiveKeys;
      for i := 0 to |findings|
        invariant State() == ApplyFindings(old(State()), live, findings[..i])
        invariant Indexes(live, rows)
        invariant Tally(KeysOf(findings[..i]), live.Keys, raised, updated)
      {
        ApplyFindingsStep(old(State()), live, findings, i);
        OneMoreKey(findings, i, live.Keys, raised, updated);
        var known := ApplyOne(live, findings[i]);
        if known {
          updated := updated + 1;
        } else {
          raised := raised + 1;
        }
      }
      assert findings[..|findings|] == findings;
      TallyMeans(KeysOf(findings), live.Keys, raised, updated);
    }

    method ResolveStale(live: map<string, nat>, seen: set<string>) returns (autoResolved: nat)
      requires forall k | k in live :: live[k] in rows && rows[live[k]].recKey == k
      modifies this`rows
      ensures rows == ResolveStaleRows(old(rows), live, seen)
      ensures autoResolved == |live.Keys - seen|
    {
      hide ResolveStaleRows, Resolving;
      autoResolved := 0;
      var todo := live.Keys;
      ResolveNone(rows, live, seen);
      while todo != {}
        invariant todo <= live.Keys
        invariant Indexes(live, rows)
        invariant Resolving(old(rows), rows, live, seen, todo, autoResolved)
      {
        var key :| key in todo;
        ResolveOneMore(old(rows), rows, live, seen, todo, key, autoResolved);
        if key !in seen {
          rows := rows[live[key] := rows[live[key]].(status := Resolved)];
          autoResolved := autoResolved + 1;
        }
        todo := todo - {key};
      }
      ResolveAll(old(rows), rows, live, seen, autoResolved);
    }
  }

  /** Every stale row but those still to do has been resolved and counted. */
  ghost predicate Resolving(before: Rows, rows: Rows, live: map<string, nat>, seen: set<string>, todo: set<string>,
                            count: nat) {
    rows == ResolveStaleRows(before, live, seen + todo) && count == |live.Keys - seen - todo|
  }

  lemma ResolveNone(rows: Rows, live: map<string, nat>, seen: set<string>)
    ensures Resolving(rows, rows, live, seen, live.Keys, 0)
  {
    assert rows == ResolveStaleRows(rows, live, seen + live.Keys);
  }

  lemma ResolveAll(before: Rows, rows: Rows, live: map<string, nat>, seen: set<string>, count: nat)
    requires Resolving(before, rows, live, seen, {}, count)
    ensures rows == ResolveStaleRows(before, live, seen) && count == |live.Keys - seen|
  {
    assert seen + {} == seen && live.Keys - seen - {} == live.Keys - seen;
  }

  lemma ResolveOneMore(before: Rows, rows: Rows, live: map<string, nat>, seen: set<string>, todo: set<string>,
                       key: string, count: nat)
    requires forall k | k in live :: live[k] in before && before[live[k]].recKey == k
    requires key in todo && key in live && Resolving(before, rows, live, seen, todo, count)
    ensures if key in seen then Resolving(before, rows, live, seen, todo - {key}, count)
            else Resolving(before, rows[live[key] := rows[live[key]].(status := Resolved)], live, seen, todo - {key},
                           count + 1)
  {
    var after := ResolveStaleRows(before, live, seen + (todo - {key}));
    if key in seen {
      assert live.Keys - seen - (todo - {key}) == live.Keys - seen - todo;
      assert after == rows;
    } else {
      assert live.Keys - seen - (todo - {key}) == live.Keys - seen - todo + {key};
      assert after == rows[live[key] := rows[live[key]].(status := Resolved)];
    }
  }

  lemma {:induction false} KeysOfMembers(findings: seq<Finding>)
    ensures forall k :: k in KeysOf(findings) <==> exists i :: 0 <= i < |findings| && findings[i].recKey == k
  {
    if findings != [] {
      KeysOfMembers(findings[..|findings| - 1]);
      assert findings[|findings| - 1].recKey in KeysOf(findings);
    }
  }

  /** How many of the keys are new and how many were known. */
  ghost predicate Tally(keys: set<string>, known: set<string>, raised: nat, updated: nat) {
    raised == |keys - known| && updated == |keys * known|
  }

  lemma TallyStart(findings: seq<Finding>, known: set<string>)
    ensures Tally(KeysOf(findings[..0]), known, 0, 0)
  {
    assert {} - known == {} && {} * known == {};
  }

  lemma TallyMeans(keys: set<string>, known: set<string>, raised: nat, updated: nat)
    requires Tally(keys, known, raised, updated)
    ensures raised == |keys - known| && updated == |keys * known|
  {
  }

  lemma OneMoreKey(findings: seq<Finding>, i: nat, known: set<string>, raised: nat, updated: nat)
    requires i < |findings| && DistinctKeys(findings)
    requires Tally(KeysOf(findings[..i]), known, raised, updated)
    ensures if findings[i].recKey in known then Tally(KeysOf(findings[..i + 1]), known, raised, updated + 1)
            else Tally(KeysOf(findings[..i + 1]), known, raised + 1, updated)
  {
    var before, key := KeysOf(findings[..i]), findings[i].recKey;
    assert findings[..i + 1][..i] == findings[..i];
    KeysOfMembers(findings[..i]);
    assert key !in before;
    AddToSet(before, known, key);
  }

  lemma AddToSet(before: set<string>, known: set<string>, key: string)
    requires key !in before
    ensures |(before + {key}) - known| == |before - known| + if key in known then 0 else 1
    ensures |(before + {key}) * known| == |before * known| + if key in known then 1 else 0
  {
    if key in known {
      assert (before + {key}) - known == before - known;
      assert (before + {key}) * known == before * known + {key};
    } else {
      assert (before + {key}) - known == before - known + {key};
      assert (before + {key}) * known == before * known;
    }
  }

  /** Updates and inserts keep every indexed row's id and key. */
  lemma {:induction false} ApplyKeepsKeys(t: Table, live: map<string, nat>, findings: seq<Finding>)
    requires t.Valid() && IsLiveIndex(live, t.rows)
    ensures var t' := ApplyFindings(t, live, findings);
      && t'.Valid() && t.nextId <= t'.nextId && t.rows.Keys <= t'.rows.Keys
      && forall id | id in t.rows :: t'.rows[id].recKey == t.rows[id].recKey && t'.rows[id].status == t.rows[id].status
  {
    if findings != [] {
      ApplyKeepsKeys(t, live, findings[..|findings| - 1]);
    }
  }
}
