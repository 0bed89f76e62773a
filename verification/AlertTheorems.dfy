/** What evaluation passes and operator actions guarantee, pass by pass and over runs. */
module AlertTheorems {
  import opened Wrappers
  import opened Findings
  import opened Alerts

  /** At most one live alert per key. */
  ghost predicate UniqueLive(rows: Rows) {
    forall id1, id2 | id1 in rows && id2 in rows && Live(rows[id1]) && Live(rows[id2]) &&
                      rows[id1].recKey == rows[id2].recKey != "" :: id1 == id2
  }

  function LiveWithKey(rows: Rows, key: string): set<nat> {
    set id | id in rows && Live(rows[id]) && rows[id].recKey == key
  }

  // ----- the rows after a pass -----

  /** What an alert is about, and who acted on it. */
  ghost predicate SameIdentity(a: Alert, b: Alert) {
    && a.recKey == b.recKey && a.campaignId == b.campaignId
    && a.acknowledgedBy == b.acknowledgedBy && a.resolvedBy == b.resolvedBy
  }

  /** Old rows keep key and status, and those outside the index keep everything. */
  ghost predicate OldKept(t: Table, live: map<string, nat>, t': Table) {
    && t.rows.Keys <= t'.rows.Keys
    && (forall id | id in t.rows :: SameIdentity(t.rows[id], t'.rows[id]) && t'.rows[id].status == t.rows[id].status)
    && (forall id | id in t.rows && t.rows[id] != t'.rows[id] ::
          t.rows[id].recKey in live && live[t.rows[id].recKey] == id)
  }

  ghost predicate Shows(a: Alert, f: Finding) {
    a.kind == f.kind && a.severity == f.severity && a.metric == f.metric
    && a.threshold == f.threshold && a.actual == f.actual && a.recKey == f.recKey && Live(a)
  }

  /** Every finding is shown by a live alert, its indexed one if it has one. */
  ghost predicate AllShown(live: map<string, nat>, findings: seq<Finding>, rows: Rows) {
    forall i | 0 <= i < |findings| :: exists id :: id in rows && ShownBy(live, findings[i], rows, id)
  }

  ghost predicate ShownBy(live: map<string, nat>, f: Finding, rows: Rows, id: nat)
    requires id in rows
  {
    && Shows(rows[id], f)
    && if f.recKey in live then live[f.recKey] == id else Untouched(rows[id], f.campaignId)
  }

  /** A new alert of this campaign on which nobody has acted. */
  ghost predicate Untouched(a: Alert, campaignId: string) {
    a.campaignId == campaignId && a.status == Open && a.acknowledgedBy == None && a.resolvedBy == None
  }

  /** The rows outside `before` are open and carry exactly these keys, each once. */
  ghost predicate NewRows(before: set<nat>, rows: Rows, keys: set<string>) {
    OpenWithKeys(before, rows, keys) && OnePerKey(before, rows) && |rows.Keys - before| == |keys|
  }

  ghost predicate OpenWithKeys(before: set<nat>, rows: Rows, keys: set<string>) {
    forall id | id in rows && id !in before :: rows[id].status == Open && rows[id].recKey in keys
  }

  ghost predicate OnePerKey(before: set<nat>, rows: Rows) {
    forall id1, id2 | id1 in rows && id2 in rows && id1 !in before && id2 !in before &&
                      rows[id1].recKey == rows[id2].recKey :: id1 == id2
  }

  ghost predicate Applied(t: Table, live: map<string, nat>, findings: seq<Finding>, t': Table) {
    && t'.Valid() && t.nextId <= t'.nextId
    && OldKept(t, live, t') && AllShown(live, findings, t'.rows)
    && NewRows(t.rows.Keys, t'.rows, KeysOf(findings) - live.Keys)
  }

  lemma {:induction false} ApplyFindingsApplied(t: Table, live: map<string, nat>, findings: seq<Finding>)
    requires t.Valid() && IsLiveIndex(live, t.rows) && DistinctKeys(findings)
    ensures Applied(t, live, findings, ApplyFindings(t, live, findings))
  {
    hide Applied, IsLiveIndex, KeysOf, ApplyFinding;
    if findings == [] {
      NothingApplied(t, live);
    } else {
      var front, f := findings[..|findings| - 1], findings[|findings| - 1];
      ApplyFindingsApplied(t, live, front);
      KeysOfMembers(front);
      assert f.recKey !in KeysOf(front);
      assert findings == front + [f];
      ApplyOne(t, live, front, ApplyFindings(t, live, front), f);
    }
  }

  lemma NothingApplied(t: Table, live: map<string, nat>)
    requires t.Valid()
    ensures Applied(t, live, [], t)
  {
    assert t.rows.Keys - t.rows.Keys == {} && KeysOf([]) - live.Keys == {};
  }

  lemma KeysAfter(front: seq<Finding>, f: Finding, known: set<string>)
    ensures KeysOf(front + [f]) - known == (KeysOf(front) - known) + if f.recKey in known then {} else {f.recKey}
  {
    assert (front + [f])[..|front|] == front;
  }

  lemma ApplyOne(t: Table, live: map<string, nat>, front: seq<Finding>, t1: Table, f: Finding)
    requires t.Valid() && IsLiveIndex(live, t.rows) && Applied(t, live, front, t1)
    requires f.recKey !in KeysOf(front)
    ensures Applied(t, live, front + [f], ApplyFinding(t1, live, f))
  {
    hide OldKept, AllShown, NewRows, IsLiveIndex, KeysOf, Opened, Refreshed;
    ApplyOneKept(t, live, t1, f);
    ApplyOneShown(t, live, front, t1, f);
    ApplyOneNew(t, live, front, t1, f);
  }

  lemma ApplyOneKept(t: Table, live: map<string, nat>, t1: Table, f: Finding)
    requires t.Valid() && t1.Valid() && t.nextId <= t1.nextId && IsLiveIndex(live, t.rows) && OldKept(t, live, t1)
    ensures OldKept(t, live, ApplyFinding(t1, live, f))
  {
  }

  lemma ApplyOneShown(t: Table, live: map<string, nat>, front: seq<Finding>, t1: Table, f: Finding)
    requires t1.Valid() && IsLiveIndex(live, t.rows) && OldKept(t, live, t1) && AllShown(live, front, t1.rows)
    requires f.recKey !in KeysOf(front)
    ensures AllShown(live, front + [f], ApplyFinding(t1, live, f).rows)
  {
    KeysOfMembers(front);
    var t' := ApplyFinding(t1, live, f);
    var id := if f.recKey in live then live[f.recKey] else t1.nextId;
    assert ShownBy(live, f, t'.rows, id);
    forall i | 0 <= i < |front + [f]| ensures exists j :: j in t'.rows && ShownBy(live, (front + [f])[i], t'.rows, j) {
      if i < |front| {
        var j :| j in t1.rows && ShownBy(live, front[i], t1.rows, j);
        assert t1.rows[j].recKey == front[i].recKey;
        assert ShownBy(live, front[i], t'.rows, j);
      }
    }
  }

  lemma ApplyOneNew(t: Table, live: map<string, nat>, front: seq<Finding>, t1: Table, f: Finding)
    requires t.Valid() && t1.Valid() && t.nextId <= t1.nextId
    requires IsLiveIndex(live, t.rows) && OldKept(t, live, t1)
    requires NewRows(t.rows.Keys, t1.rows, KeysOf(front) - live.Keys)
    requires f.recKey !in KeysOf(front)
    ensures NewRows(t.rows.Keys, ApplyFinding(t1, live, f).rows, KeysOf(front + [f]) - live.Keys)
  {
    KeysAfter(front, f, live.Keys);
    var keys := KeysOf(front) - live.Keys;
    hide KeysOf, Refreshed;
    if f.recKey in live {
      var id := live[f.recKey];
      assert id in t.rows && id in t1.rows;
      hide IsLiveIndex, OldKept, NewRows;
      RefreshKeepsNew(t.rows.Keys, t1.rows, keys, id, Refreshed(t1.rows[id], f));
    } else {
      hide IsLiveIndex, OldKept, NewRows;
      OpenAddsNew(t.rows.Keys, t1.rows, keys, t1.nextId, Opened(f));
    }
  }

  lemma RefreshKeepsNew(before: set<nat>, rows: Rows, keys: set<string>, id: nat, a: Alert)
    requires NewRows(before, rows, keys) && id in before && id in rows
    ensures NewRows(before, rows[id := a], keys)
  {
    assert rows[id := a].Keys == rows.Keys;
  }

  lemma OpenAddsNew(before: set<nat>, rows: Rows, keys: set<string>, id: nat, a: Alert)
    requires NewRows(before, rows, keys) && id !in before && id !in rows
    requires a.status == Open && a.recKey !in keys
    ensures NewRows(before, rows[id := a], keys + {a.recKey})
  {
    hide OpenWithKeys, OnePerKey;
    OneMoreId(before, rows, id, a);
    OpenAddsKey(before, rows, keys, id, a);
    assert |keys + {a.recKey}| == |keys| + 1;
  }

  lemma OpenAddsKey(before: set<nat>, rows: Rows, keys: set<string>, id: nat, a: Alert)
    requires OpenWithKeys(before, rows, keys) && OnePerKey(before, rows)
    requires a.status == Open && a.recKey !in keys
    ensures OpenWithKeys(before, rows[id := a], keys + {a.recKey}) && OnePerKey(before, rows[id := a])
  {
  }

  lemma OneMoreId(before: set<nat>, rows: Rows, id: nat, a: Alert)
    requires id !in before && id !in rows
    ensures |rows[id := a].Keys - before| == |rows.Keys - before| + 1
  {
    assert rows[id := a].Keys - before == rows.Keys - before + {id};
  }

  // ----- one evaluation pass -----

  /** A pass run on a consistent table with the index it built. */
  ghost predicate Pass(t: Table, live: map<string, nat>, findings: seq<Finding>) {
    && t.Valid() && IsLiveIndex(live, t.rows) && DistinctKeys(findings)
    && forall f | f in findings :: f.recKey != ""
  }

  /** Row by row: an old row keeps its status unless it is the indexed row of a stale key,
      which is resolved; a row outside the index, such as any resolved one, does not change. */
  lemma OldRowsAfter(t: Table, live: map<string, nat>, findings: seq<Finding>)
    requires Pass(t, live, findings)
    ensures var rows := Evaluated(t, live, findings).rows;
      && Evaluated(t, live, findings).Valid()
      && t.rows.Keys <= rows.Keys
      && (forall id | id in t.rows :: SameIdentity(t.rows[id], rows[id]))
      && (forall id | id in t.rows :: rows[id].status ==
            if Stale(live, KeysOf(findings), id, t.rows[id]) then Resolved else t.rows[id].status)
      && (forall id | id in t.rows && t.rows[id].status == Resolved :: rows[id] == t.rows[id])
  {
    hide AllShown, NewRows, KeysOf, LiveKeys;
    ApplyFindingsApplied(t, live, findings);
    hide ApplyFindings;
  }

  /** The new rows are open and stand one for one for the findings without a live alert. */
  lemma NewRowsAfter(t: Table, live: map<string, nat>, findings: seq<Finding>)
    requires Pass(t, live, findings)
    ensures NewRows(t.rows.Keys, Evaluated(t, live, findings).rows, KeysOf(findings) - live.Keys)
  {
    hide AllShown, OldKept, NewRows, KeysOf, LiveKeys, IsLiveIndex, ApplyFindings;
    ApplyFindingsApplied(t, live, findings);
    ResolveKeepsNew(t.rows.Keys, ApplyFindings(t, live, findings).rows, live, KeysOf(findings));
  }

  lemma ResolveKeepsNew(before: set<nat>, rows: Rows, live: map<string, nat>, seen: set<string>)
    requires NewRows(before, rows, seen - live.Keys)
    ensures NewRows(before, ResolveStaleRows(rows, live, seen), seen - live.Keys)
  {
    var rows' := ResolveStaleRows(rows, live, seen);
    assert rows'.Keys == rows.Keys;
    assert forall id | id in rows && id !in before :: rows'[id] == rows[id];
  }

  /** After the pass every finding is shown, with its numbers, by a live alert of its key. */
  lemma FindingsShownAfter(t: Table, live: map<string, nat>, findings: seq<Finding>)
    requires Pass(t, live, findings)
    ensures AllShown(live, findings, Evaluated(t, live, findings).rows)
  {
    hide OldKept, NewRows, LiveKeys, IsLiveIndex;
    ApplyFindingsApplied(t, live, findings);
    KeysOfMembers(findings);
    var applied, rows := ApplyFindings(t, live, findings).rows, Evaluated(t, live, findings).rows;
    hide ApplyFindings, KeysOf;
    forall i | 0 <= i < |findings| ensures exists id :: id in rows && ShownBy(live, findings[i], rows, id) {
      var id :| id in applied && ShownBy(live, findings[i], applied, id);
      assert applied[id].recKey == findings[i].recKey;
      assert findings[i].recKey in KeysOf(findings);
      assert ShownBy(live, findings[i], rows, id);
    }
  }

  /** Uniqueness of live alerts survives every pass. */
  lemma PassKeepsUnique(t: Table, live: map<string, nat>, findings: seq<Finding>)
    requires Pass(t, live, findings) && UniqueLive(t.rows)
    ensures UniqueLive(Evaluated(t, live, findings).rows)
  {
    OldRowsAfter(t, live, findings);
    NewRowsAfter(t, live, findings);
    hide Evaluated, KeysOf;
  }

  /** A key's live alerts after a pass: a finding's key keeps its own or gets one, and a
      key without a finding loses exactly its indexed alert. */
  lemma LiveWithKeyAfter(t: Table, live: map<string, nat>, findings: seq<Finding>, key: string)
    requires Pass(t, live, findings) && key != ""
    ensures var before, after := LiveWithKey(t.rows, key), LiveWithKey(Evaluated(t, live, findings).rows, key);
      && (key in KeysOf(findings) ==> after != {} && before <= after)
      && (key in KeysOf(findings) && key in live ==> after == before)
      && (key !in KeysOf(findings) && key in live ==> live[key] in before && after == before - {live[key]})
      && (key !in KeysOf(findings) && key !in live ==> before == {} && after == {})
  {
    hide Evaluated, KeysOf, IsLiveIndex, LiveKeys, LiveWithKey;
    OldLiveWithKey(t, live, findings, key);
    NewLiveWithKey(t, live, findings, key);
    if key in KeysOf(findings) {
      FindingHasLive(t, live, findings, key);
    }
  }

  lemma NewLiveWithKey(t: Table, live: map<string, nat>, findings: seq<Finding>, key: string)
    requires Pass(t, live, findings)
    ensures key in live || key !in KeysOf(findings)
        ==> LiveWithKey(Evaluated(t, live, findings).rows, key) <= t.rows.Keys
  {
    hide Evaluated, KeysOf, IsLiveIndex, LiveKeys;
    NewRowsAfter(t, live, findings);
  }

  lemma FindingHasLive(t: Table, live: map<string, nat>, findings: seq<Finding>, key: string)
    requires Pass(t, live, findings) && key in KeysOf(findings)
    ensures LiveWithKey(Evaluated(t, live, findings).rows, key) != {}
  {
    FindingsShownAfter(t, live, findings);
    KeysOfMembers(findings);
    var rows := Evaluated(t, live, findings).rows;
    hide Evaluated, KeysOf;
    var i :| 0 <= i < |findings| && findings[i].recKey == key;
    var id :| id in rows && ShownBy(live, findings[i], rows, id);
    assert id in LiveWithKey(rows, key);
  }

  /** Of the rows that were there before. */
  lemma OldLiveWithKey(t: Table, live: map<string, nat>, findings: seq<Finding>, key: string)
    requires Pass(t, live, findings) && key != ""
    ensures var before, after := LiveWithKey(t.rows, key), LiveWithKey(Evaluated(t, live, findings).rows, key);
      && (after * t.rows.Keys == if key in live && key !in KeysOf(findings) then before - {live[key]} else before)
      && (key in live ==> live[key] in before)
      && (key !in live ==> before == {})
  {
    OldRowsAfter(t, live, findings);
    hide Evaluated, KeysOf, LiveKeys;
    LiveKeyIff(t.rows, key);
    var gone := key in live && key !in KeysOf(findings);
    var before, after := LiveWithKey(t.rows, key), LiveWithKey(Evaluated(t, live, findings).rows, key);
    forall id ensures id in after * t.rows.Keys <==> id in before && !(gone && id == live[key]) {}
  }

  /** After a pass over a table with unique live alerts, the live keys are the finding keys. */
  lemma LiveKeysAreFindingKeys(t: Table, live: map<string, nat>, findings: seq<Finding>)
    requires Pass(t, live, findings) && UniqueLive(t.rows)
    ensures LiveKeys(Evaluated(t, live, findings).rows) == KeysOf(findings)
  {
    KeysOfMembers(findings);
    var rows := Evaluated(t, live, findings).rows;
    hide Evaluated, KeysOf;
    forall key ensures key in LiveKeys(rows) <==> key in KeysOf(findings) {
      LiveKeyIff(rows, key);
      if key != "" {
        LiveWithKeyAfter(t, live, findings, key);
        UniqueMeansOne(t.rows, live, key);
      }
    }
  }

  lemma LiveKeyIff(rows: Rows, key: string)
    ensures key in LiveKeys(rows) <==> key != "" && LiveWithKey(rows, key) != {}
  {
    if key != "" && LiveWithKey(rows, key) != {} {
      var id :| id in LiveWithKey(rows, key);
      assert rows[id].recKey in LiveKeys(rows);
    }
    if key in LiveKeys(rows) {
      var id :| id in rows && Live(rows[id]) && rows[id].recKey != "" && rows[id].recKey == key;
      assert id in LiveWithKey(rows, key);
    }
  }

  lemma UniqueMeansOne(rows: Rows, live: map<string, nat>, key: string)
    requires UniqueLive(rows) && IsLiveIndex(live, rows) && key != ""
    ensures LiveWithKey(rows, key) == if key in live then {live[key]} else {}
  {
    LiveKeyIff(rows, key);
  }

  // ----- counting -----

  /** In any state, even with duplicates: the counts cover the findings, and the number of
      live alerts moves by those opened less those resolved. */
  lemma CountsBalance(t: Table, live: map<string, nat>, findings: seq<Finding>)
    requires Pass(t, live, findings)
    ensures |KeysOf(findings) - live.Keys| + |KeysOf(findings) * live.Keys| == |findings|
    ensures |LiveIds(Evaluated(t, live, findings).rows)|
         == |LiveIds(t.rows)| + |KeysOf(findings) - live.Keys| - |live.Keys - KeysOf(findings)|
  {
    hide Evaluated, KeysOf, LiveIds, IndexedIds, IsLiveIndex, NewRows, LiveKeys;
    DistinctCount(findings);
    SplitSize(KeysOf(findings), live.Keys);
    OldRowsAfter(t, live, findings);
    NewRowsAfter(t, live, findings);
    var rows, keys := Evaluated(t, live, findings).rows, KeysOf(findings);
    IndexedCount(t.rows, live, live.Keys - keys);
    LiveIdsAfter(t.rows, rows, live, keys);
    MoveSize(LiveIds(t.rows), IndexedIds(live, live.Keys - keys), rows.Keys - t.rows.Keys);
    NewRowCount(t.rows.Keys, rows, keys - live.Keys);
  }

  lemma NewRowCount(before: set<nat>, rows: Rows, keys: set<string>)
    requires NewRows(before, rows, keys)
    ensures |rows.Keys - before| == |keys|
  {
  }

  lemma MoveSize(a: set<nat>, gone: set<nat>, added: set<nat>)
    requires gone <= a && (a - gone) !! added
    ensures |(a - gone) + added| == |a| - |gone| + |added|
  {
    SplitSize(a, gone);
    assert a * gone == gone;
  }

  lemma LiveIdsAfter(before: Rows, rows: Rows, live: map<string, nat>, seen: set<string>)
    requires IsLiveIndex(live, before) && NewRows(before.Keys, rows, seen - live.Keys) && before.Keys <= rows.Keys
    requires forall id | id in before ::
               rows[id].status == if Stale(live, seen, id, before[id]) then Resolved else before[id].status
    ensures IndexedIds(live, live.Keys - seen) <= LiveIds(before)
    ensures LiveIds(rows) == (LiveIds(before) - IndexedIds(live, live.Keys - seen)) + (rows.Keys - before.Keys)
    ensures (LiveIds(before) - IndexedIds(live, live.Keys - seen)) !! (rows.Keys - before.Keys)
  {
    hide LiveKeys;
    forall id | id in before ensures Stale(live, seen, id, before[id]) <==> id in IndexedIds(live, live.Keys - seen) {
      StaleIsIndexed(before, live, seen, id);
    }
    IndexedAreLive(before, live, seen);
    hide Stale, IndexedIds, IsLiveIndex, LiveIds;
    LiveIdsMove(before, rows, IndexedIds(live, live.Keys - seen));
  }

  lemma LiveIdsMove(before: Rows, rows: Rows, stale: set<nat>)
    requires before.Keys <= rows.Keys && stale <= LiveIds(before)
    requires forall id | id in rows && id !in before :: rows[id].status == Open
    requires forall id | id in before :: rows[id].status == if id in stale then Resolved else before[id].status
    ensures LiveIds(rows) == (LiveIds(before) - stale) + (rows.Keys - before.Keys)
    ensures (LiveIds(before) - stale) !! (rows.Keys - before.Keys)
  {
  }

  lemma StaleIsIndexed(rows: Rows, live: map<string, nat>, seen: set<string>, id: nat)
    requires IsLiveIndex(live, rows) && id in rows
    ensures Stale(live, seen, id, rows[id]) <==> id in IndexedIds(live, live.Keys - seen)
  {
    hide LiveKeys;
    if Stale(live, seen, id, rows[id]) {
      assert rows[id].recKey in live.Keys - seen;
    }
  }

  lemma IndexedAreLive(rows: Rows, live: map<string, nat>, seen: set<string>)
    requires IsLiveIndex(live, rows)
    ensures IndexedIds(live, live.Keys - seen) <= LiveIds(rows)
  {
    hide LiveKeys;
  }

  function IndexedIds(live: map<string, nat>, keys: set<string>): set<nat> {
    set k | k in keys && k in live :: live[k]
  }

  lemma {:induction false} IndexedCount(rows: Rows, live: map<string, nat>, keys: set<string>)
    requires IsLiveIndex(live, rows) && keys <= live.Keys
    ensures |IndexedIds(live, keys)| == |keys|
  {
    if keys == {} {
      assert IndexedIds(live, keys) == {};
    } else {
      var k :| k in keys;
      IndexedCount(rows, live, keys - {k});
      assert IndexedIds(live, keys) == IndexedIds(live, keys - {k}) + {live[k]};
      assert live[k] !in IndexedIds(live, keys - {k});
    }
  }

  lemma {:induction false} DistinctCount(findings: seq<Finding>)
    requires DistinctKeys(findings)
    ensures |KeysOf(findings)| == |findings|
  {
    if findings != [] {
      DistinctCount(findings[..|findings| - 1]);
      KeysOfMembers(findings[..|findings| - 1]);
    }
  }

  lemma SplitSize<T>(a: set<T>, b: set<T>)
    ensures |a - b| + |a * b| == |a|
  {
    assert a == (a - b) + a * b;
  }

  // ----- a second pass -----

  /** A second pass with the same findings opens nothing, and resolves nothing exactly when
      no key without a finding had two live alerts before the first. */
  lemma SecondPass(t: Table, live: map<string, nat>, findings: seq<Finding>, live2: map<string, nat>)
    requires Pass(t, live, findings) && IsLiveIndex(live2, Evaluated(t, live, findings).rows)
    ensures |KeysOf(findings) - live2.Keys| == 0
    ensures |live2.Keys - KeysOf(findings)| == 0 <==>
      forall key | key in live && key !in KeysOf(findings) :: LiveWithKey(t.rows, key) == {live[key]}
  {
    var rows := Evaluated(t, live, findings).rows;
    KeysOfMembers(findings);
    hide Evaluated, KeysOf;
    forall key ensures key in KeysOf(findings) ==> key in live2
               ensures key !in KeysOf(findings)
                   ==> (key in live2 <==> key in live && LiveWithKey(t.rows, key) != {live[key]})
    {
      LiveKeyIff(rows, key);
      LiveKeyIff(t.rows, key);
      if key != "" {
        LiveWithKeyAfter(t, live, findings, key);
      }
    }
    assert KeysOf(findings) - live2.Keys == {};
    assert |live2.Keys - KeysOf(findings)| == 0 <==> live2.Keys - KeysOf(findings) == {};
  }

  // ----- operator actions and runs -----

  function AcknowledgeRow(t: Table, id: nat, actor: string): Table {
    if id !in t.rows then t
    else t.(rows := t.rows[id := t.rows[id].(status := Acknowledged, acknowledgedBy := Some(actor))])
  }

  function ResolveRow(t: Table, id: nat, actor: string): Table {
    if id in t.rows then t.(rows := t.rows[id := t.rows[id].(status := Resolved, resolvedBy := Some(actor))]) else t
  }

  /** The alert is live, has no key, or its key has no live alert. */
  predicate MayAcknowledge(t: Table, id: nat) {
    id in t.rows ==> Live(t.rows[id]) || t.rows[id].recKey == "" || t.rows[id].recKey !in LiveKeys(t.rows)
  }

  /** Acknowledging makes a resolved alert live again. It keeps live alerts unique exactly
      when the alert is live already or its key has no live alert. */
  lemma AcknowledgeKeepsUniqueIff(t: Table, id: nat, actor: string)
    requires UniqueLive(t.rows)
    ensures UniqueLive(AcknowledgeRow(t, id, actor).rows) <==> MayAcknowledge(t, id)
  {
    var rows := AcknowledgeRow(t, id, actor).rows;
    if !MayAcknowledge(t, id) {
      var other :| other in t.rows && Live(t.rows[other]) && t.rows[other].recKey == t.rows[id].recKey;
      assert other != id && rows[other] == t.rows[other];
      assert Live(rows[id]) && Live(rows[other]) && rows[id].recKey == rows[other].recKey != "";
    } else if id in t.rows {
      assert forall other | other in t.rows && Live(t.rows[other]) && t.rows[other].recKey != "" ::
               t.rows[other].recKey in LiveKeys(t.rows);
    }
  }

  datatype Event =
    | Evaluation(campaigns: seq<Campaign>)
    | Acknowledgement(id: nat, actor: string)
    | Resolution(id: nat, actor: string)

  ghost predicate Happens(t: Table, e: Event, t': Table) {
    match e
    case Evaluation(campaigns) =>
      exists live :: IsLiveIndex(live, t.rows) && t' == Evaluated(t, live, AllFindings(campaigns))
    case Acknowledgement(id, actor) => t' == AcknowledgeRow(t, id, actor)
    case Resolution(id, actor) => t' == ResolveRow(t, id, actor)
  }

  /** Campaigns have distinct ids, and a resolved alert is acknowledged only while its key
      has no live alert. */
  ghost predicate Orderly(t: Table, e: Event) {
    match e
    case Evaluation(campaigns) => DistinctIds(campaigns)
    case Acknowledgement(id, _) => MayAcknowledge(t, id)
    case Resolution(_, _) => true
  }

  ghost predicate Trace(states: seq<Table>, events: seq<Event>) {
    && |states| == |events| + 1
    && states[0] == Table(map[], 0)
    && forall i | 0 <= i < |events| :: Orderly(states[i], events[i]) && Happens(states[i], events[i], states[i + 1])
  }

  lemma EventKeepsUnique(t: Table, e: Event, t': Table)
    requires t.Valid() && UniqueLive(t.rows) && Orderly(t, e) && Happens(t, e, t')
    ensures t'.Valid() && UniqueLive(t'.rows)
    ensures e.Evaluation? ==> LiveKeys(t'.rows) == KeysOf(AllFindings(e.campaigns))
    ensures forall id | id in t.rows && t.rows[id].status == Resolved && !e.Acknowledgement? ::
              id in t'.rows && t'.rows[id].status == Resolved
  {
    match e
    case Evaluation(campaigns) =>
      var live :| IsLiveIndex(live, t.rows) && t' == Evaluated(t, live, AllFindings(campaigns));
      FindingKeysDistinct(campaigns);
      var findings := AllFindings(campaigns);
      hide Evaluated, AllFindings, IsLiveIndex, UniqueLive;
      PassKeepsUnique(t, live, findings);
      LiveKeysAreFindingKeys(t, live, findings);
      OldRowsAfter(t, live, findings);
    case Acknowledgement(id, actor) => AcknowledgeKeepsUniqueIff(t, id, actor);
    case Resolution(id, actor) =>
  }

  /** Over every run of passes, resolutions and orderly acknowledgements: live alerts stay
      unique per key, after every pass the live keys are the keys of its findings, and only
      an acknowledgement ever revives a resolved alert. */
  lemma {:induction false} EveryRun(states: seq<Table>, events: seq<Event>, k: nat)
    requires Trace(states, events) && k < |states|
    ensures states[k].Valid() && UniqueLive(states[k].rows)
    ensures k > 0 && events[k - 1].Evaluation?
        ==> LiveKeys(states[k].rows) == KeysOf(AllFindings(events[k - 1].campaigns))
    ensures k > 0 && !events[k - 1].Acknowledgement? ==>
              forall id | id in states[k - 1].rows && states[k - 1].rows[id].status == Resolved ::
                id in states[k].rows && states[k].rows[id].status == Resolved
  {
    if k > 0 {
      EveryRun(states, events, k - 1);
      assert Orderly(states[k - 1], events[k - 1]) && Happens(states[k - 1], events[k - 1], states[k - 1 + 1]);
      hide Happens, Orderly, UniqueLive, AllFindings;
      EventKeepsUnique(states[k - 1], events[k - 1], states[k]);
    }
  }

  // ----- a run that is not orderly -----

  /** A campaign whose budget is spent, and nothing else to find. */
  function SpentCampaign(id: string): Campaign {
    Campaign(id, 1.0, 0.0, 0, 0, 0, None, None, 1.0)
  }

  function SpentFinding(id: string): Finding {
    Finding(id, AlertKind, High, "budget", 1.0, 1.0, "budget:" + id)
  }

  lemma SpentFindings(id: string)
    ensures AllFindings([SpentCampaign(id)]) == [SpentFinding(id)]
  {
    var c := SpentCampaign(id);
    assert CplFinding(c) == [] && CtrFinding(c) == [] && RoasFinding(c) == [];
    assert BudgetFinding(c) == [SpentFinding(id)];
    assert [] + [] + [SpentFinding(id)] + [] == [SpentFinding(id)];
    assert [c][..0] == [];
    assert AllFindings([]) == [];
  }

  /** A pass that opens the alert: from a table where no live alert has a key. */
  lemma PassOpens(t: Table, id: string)
    requires t.Valid() && forall i | i in t.rows :: !Live(t.rows[i])
    ensures Happens(t, Evaluation([SpentCampaign(id)]),
                    Table(t.rows[t.nextId := Opened(SpentFinding(id))], t.nextId + 1))
  {
    SpentFindings(id);
    var f := SpentFinding(id);
    var live: map<string, nat> := map[];
    assert IsLiveIndex(live, t.rows);
    assert [f][..0] == [] && ApplyFindings(t, live, []) == t;
    assert ApplyFindings(t, live, [f]) == ApplyFinding(t, live, f);
    var grown := Table(t.rows[t.nextId := Opened(f)], t.nextId + 1);
    assert ResolveStaleRows(grown.rows, live, KeysOf([f])) == grown.rows;
    assert Evaluated(t, live, [f]) == grown;
  }

  /** One after the other, with no condition on the events. */
  ghost predicate Chain(states: seq<Table>, events: seq<Event>) {
    && |states| == |events| + 1
    && forall i | 0 <= i < |events| :: Happens(states[i], events[i], states[i + 1])
  }

  function WithStatus(a: Alert, status: Status, actor: string): Alert {
    if status == Resolved then a.(status := status, resolvedBy := Some(actor))
    else a.(status := status, acknowledgedBy := Some(actor))
  }

  lemma ResolveAndAcknowledge(a: Alert, actor: string)
    requires Live(a) && a.recKey != ""
    ensures var done := WithStatus(a, Resolved, actor);
            var revived := WithStatus(done, Acknowledged, actor);
            && Happens(Table(map[0 := a], 1), Resolution(0, actor), Table(map[0 := done], 1))
            && Happens(Table(map[0 := done, 1 := a], 2), Acknowledgement(0, actor), Table(map[0 := revived, 1 := a], 2))
            && !Live(done)
            && !UniqueLive(map[0 := revived, 1 := a])
  {
    var done := WithStatus(a, Resolved, actor);
    var revived := WithStatus(done, Acknowledged, actor);
    assert map[0 := a][0 := done] == map[0 := done];
    assert map[0 := done, 1 := a][0 := revived] == map[0 := revived, 1 := a];
    var rows := map[0 := revived, 1 := a];
    assert 0 in rows && 1 in rows && Live(rows[0]) && Live(rows[1]) && rows[0].recKey == rows[1].recKey;
  }

  /** Open, resolve, open again, acknowledge the resolved one: two live alerts for one key. */
  lemma RevivedAlertDuplicates(id: string, actor: string)
    ensures exists states: seq<Table> ::
        && Chain(states, [Evaluation([SpentCampaign(id)]), Resolution(0, actor),
                          Evaluation([SpentCampaign(id)]), Acknowledgement(0, actor)])
        && states[0] == Table(map[], 0)
        && !UniqueLive(states[4].rows)
  {
    var c, a := SpentCampaign(id), Opened(SpentFinding(id));
    assert Live(a) && a.recKey != "";
    hide SpentFinding, SpentCampaign, Opened, UniqueLive;
    ResolveAndAcknowledge(a, actor);
    var done := WithStatus(a, Resolved, actor);
    var t0, t1, t2 := Table(map[], 0), Table(map[0 := a], 1), Table(map[0 := done], 1);
    var t3, t4 := Table(map[0 := done, 1 := a], 2), Table(map[0 := WithStatus(done, Acknowledged, actor), 1 := a], 2);
    PassOpens(t0, id);
    assert t0.rows[0 := a] == t1.rows;
    PassOpens(t2, id);
    assert t2.rows[1 := a] == t3.rows;
    hide Happens, WithStatus;
    var states := [t0, t1, t2, t3, t4];
    var events :=
      [Evaluation([c]), Resolution(0, actor), Evaluation([c]), Acknowledgement(0, actor)];
    assert Chain(states, events) && states[0] == Table(map[], 0) && !UniqueLive(states[4].rows);
  }
}
