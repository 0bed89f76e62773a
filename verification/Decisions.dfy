/** The append-only decision history and its current decision per recommendation, as the
    two database dialects compute it. */
module Decisions {
  import opened Wrappers

  datatype Decision = Accepted | Modified | Rejected

  datatype Action = Action(recKey: string, decision: Decision, reason: string, createdAt: real)

  /** No two rows of one recommendation carry the same time. Rows need not be appended in the order
      of their times, which are those of their transactions' starts. */
  ghost predicate DistinctTimes(history: seq<Action>) {
    forall i, j | 0 <= i < j < |history| && history[i].recKey == history[j].recKey ::
      history[i].createdAt != history[j].createdAt
  }

  predicate Newer(a: Action, current: Option<Action>) {
    current.None? || current.value.createdAt < a.createdAt
  }

  /** The newest recorded decision on a recommendation. */
  function Latest(history: seq<Action>, key: string): Option<Action> {
    if history == [] then None
    else
      var front, last := Latest(history[..|history| - 1], key), history[|history| - 1];
      if last.recKey == key && Newer(last, front) then Some(last) else front
  }

  /** A map holds exactly the latest decision of every recommendation that has one. */
  ghost predicate IsLatestMap(latest: map<string, Action>, history: seq<Action>) {
    forall key :: Latest(history, key) == if key in latest then Some(latest[key]) else None
  }

  /** `Latest` is a row with the greatest timestamp among the key's rows. */
  lemma {:induction false} LatestIsNewest(history: seq<Action>, key: string)
    ensures Latest(history, key).None? ==> forall a | a in history :: a.recKey != key
    ensures Latest(history, key).Some? ==>
      var row := Latest(history, key).value;
      row in history && row.recKey == key && forall a | a in history && a.recKey == key :: a.createdAt <= row.createdAt
  {
    if history != [] {
      var front, last := history[..|history| - 1], history[|history| - 1];
      LatestIsNewest(front, key);
      assert history == front + [last];
    }
  }

  /** With distinct times it is the only one. */
  lemma LatestUnique(history: seq<Action>, key: string, row: Action)
    requires DistinctTimes(history) && row in history && row.recKey == key
    requires forall a | a in history && a.recKey == key :: a.createdAt <= row.createdAt
    ensures Latest(history, key) == Some(row)
  {
    LatestIsNewest(history, key);
    var latest := Latest(history, key).value;
    var i :| 0 <= i < |history| && history[i] == row;
    var j :| 0 <= j < |history| && history[j] == latest;
    assert latest.createdAt == row.createdAt;
    assert i == j;
  }

  // ----- the in-memory scan -----

  /** What `ORDER BY created_at DESC` may return. */
  ghost predicate NewestFirst(rows: seq<Action>, history: seq<Action>) {
    && multiset(rows) == multiset(history)
    && forall i, j | 0 <= i < j < |rows| :: rows[i].createdAt >= rows[j].createdAt
  }

  /** The first row of each key. */
  function FirstSeen(rows: seq<Action>): map<string, Action> {
    if rows == [] then map[]
    else
      var front, last := FirstSeen(rows[..|rows| - 1]), rows[|rows| - 1];
      if last.recKey in front then front else front[last.recKey := last]
  }

  /** `setdefault` in the order of the rows. */
  method ScanNewestFirst(rows: seq<Action>, ghost history: seq<Action>) returns (latest: map<string, Action>)
    ensures latest == FirstSeen(rows)
    ensures DistinctTimes(history) && NewestFirst(rows, history) ==> IsLatestMap(latest, history)
  {
    latest := map[];
    for i := 0 to |rows|
      invariant latest == FirstSeen(rows[..i])
    {
      assert rows[..i + 1][..i] == rows[..i];
      if rows[i].recKey !in latest {
        latest := latest[rows[i].recKey := rows[i]];
      }
    }
    assert rows[..|rows|] == rows;
    if DistinctTimes(history) && NewestFirst(rows, history) {
      FirstSeenIsLatest(rows, history);
    }
  }

  ghost predicate IsFirst(rows: seq<Action>, j: int, key: string) {
    0 <= j < |rows| && rows[j].recKey == key && forall i | 0 <= i < j :: rows[i].recKey != key
  }

  lemma {:induction false} FirstSeenMembers(rows: seq<Action>)
    ensures forall j | 0 <= j < |rows| :: rows[j].recKey in FirstSeen(rows)
    ensures forall k | k in FirstSeen(rows) :: exists j :: IsFirst(rows, j, k) && rows[j] == FirstSeen(rows)[k]
  {
    if rows != [] {
      var front := rows[..|rows| - 1];
      FirstSeenMembers(front);
      forall k | k in FirstSeen(rows) ensures exists j :: IsFirst(rows, j, k) && rows[j] == FirstSeen(rows)[k] {
        if k in FirstSeen(front) {
          var j :| IsFirst(front, j, k) && front[j] == FirstSeen(front)[k];
          assert IsFirst(rows, j, k);
        } else {
          assert IsFirst(rows, |front|, k);
        }
      }
    }
  }

  /** Within each recommendation the rows run from the newest to the oldest. */
  ghost predicate EachNewestFirst(rows: seq<Action>) {
    forall i, j | 0 <= i < j < |rows| && rows[i].recKey == rows[j].recKey :: rows[i].createdAt >= rows[j].createdAt
  }

  /** Then, with distinct times, the first rows are exactly the latest decisions. */
  lemma FirstSeenLatest(rows: seq<Action>, history: seq<Action>)
    requires DistinctTimes(history) && multiset(rows) == multiset(history) && EachNewestFirst(rows)
    ensures IsLatestMap(FirstSeen(rows), history)
  {
    hide FirstSeen, DistinctTimes, Latest, EachNewestFirst;
    forall key ensures Latest(history, key) == if key in FirstSeen(rows) then Some(FirstSeen(rows)[key]) else None {
      FirstSeenLatestOf(rows, history, key);
    }
  }

  lemma FirstSeenLatestOf(rows: seq<Action>, history: seq<Action>, key: string)
    requires DistinctTimes(history) && multiset(rows) == multiset(history) && EachNewestFirst(rows)
    ensures Latest(history, key) == if key in FirstSeen(rows) then Some(FirstSeen(rows)[key]) else None
  {
    FirstSeenMembers(rows);
    SameRows(rows, history);
    var latest := FirstSeen(rows);
    hide FirstSeen, DistinctTimes, Latest;
    if key in latest {
      var i :| IsFirst(rows, i, key) && rows[i] == latest[key];
      forall a | a in history && a.recKey == key ensures a.createdAt <= latest[key].createdAt {
        assert a in rows;
        var j :| 0 <= j < |rows| && rows[j] == a;
      }
      assert rows[i] in rows;
      LatestUnique(history, key, latest[key]);
    } else {
      LatestIsNewest(history, key);
    }
  }

  lemma FirstSeenIsLatest(rows: seq<Action>, history: seq<Action>)
    requires DistinctTimes(history) && NewestFirst(rows, history)
    ensures IsLatestMap(FirstSeen(rows), history)
  {
    FirstSeenLatest(rows, history);
  }

  lemma SameRows(rows: seq<Action>, history: seq<Action>)
    requires multiset(rows) == multiset(history)
    ensures forall a :: a in rows <==> a in history
  {
    forall a ensures a in rows <==> a in history {
      assert a in rows <==> a in multiset(rows);
      assert a in history <==> a in multiset(history);
    }
  }

  // ----- DISTINCT ON -----

  /** What `ORDER BY rec_key, created_at DESC` may return: a key's rows stand together,
      newest first. */
  ghost predicate GroupedNewestFirst(rows: seq<Action>, history: seq<Action>) {
    multiset(rows) == multiset(history) && Grouped(rows) && EachNewestFirst(rows)
  }

  ghost predicate Grouped(rows: seq<Action>) {
    forall i, j, k | 0 <= i < j < k < |rows| && rows[i].recKey == rows[k].recKey :: rows[j].recKey == rows[i].recKey
  }

  predicate StartsGroup(rows: seq<Action>, i: nat)
    requires i < |rows|
  {
    i == 0 || rows[i - 1].recKey != rows[i].recKey
  }

  /** The first row of each run of rows with one key, keyed by it. */
  function DistinctOn(rows: seq<Action>): map<string, Action> {
    if rows == [] then map[]
    else
      var front, last := DistinctOn(rows[..|rows| - 1]), rows[|rows| - 1];
      if StartsGroup(rows, |rows| - 1) then front[last.recKey := last] else front
  }

  lemma NewGroupUnseen(rows: seq<Action>)
    requires Grouped(rows) && rows != [] && StartsGroup(rows, |rows| - 1)
    ensures forall j | 0 <= j < |rows| - 1 :: rows[j].recKey != rows[|rows| - 1].recKey
  {
  }

  /** Over grouped rows the first row of each run is the first row of its key. */
  lemma {:induction false} DistinctOnIsFirstSeen(rows: seq<Action>)
    requires Grouped(rows)
    ensures DistinctOn(rows) == FirstSeen(rows)
  {
    if rows != [] {
      var front, last := rows[..|rows| - 1], rows[|rows| - 1];
      DistinctOnIsFirstSeen(front);
      FirstSeenMembers(front);
      if StartsGroup(rows, |rows| - 1) {
        NewGroupUnseen(rows);
      }
      if !StartsGroup(rows, |rows| - 1) {
        assert front[|front| - 1].recKey == last.recKey;
      }
    }
  }

  /** Keeps the first row of each group, then keys the kept rows. */
  method DistinctOnRecKey(rows: seq<Action>, ghost history: seq<Action>) returns (latest: map<string, Action>)
    ensures latest == DistinctOn(rows)
    ensures DistinctTimes(history) && GroupedNewestFirst(rows, history) ==> IsLatestMap(latest, history)
  {
    latest := map[];
    for i := 0 to |rows|
      invariant latest == DistinctOn(rows[..i])
    {
      assert rows[..i + 1][..i] == rows[..i];
      if i == 0 || rows[i - 1].recKey != rows[i].recKey {
        latest := latest[rows[i].recKey := rows[i]];
      }
    }
    assert rows[..|rows|] == rows;
    if DistinctTimes(history) && GroupedNewestFirst(rows, history) {
      DistinctOnIsFirstSeen(rows);
      FirstSeenLatest(rows, history);
    }
  }

  /** With distinct times the two queries agree, whatever order the database picks within theirs. */
  lemma DialectsAgree(scanned: seq<Action>, grouped: seq<Action>, history: seq<Action>)
    requires DistinctTimes(history) && NewestFirst(scanned, history) && GroupedNewestFirst(grouped, history)
    ensures FirstSeen(scanned) == DistinctOn(grouped)
  {
    FirstSeenLatest(scanned, history);
    FirstSeenLatest(grouped, history);
    DistinctOnIsFirstSeen(grouped);
    var m1, m2 := FirstSeen(scanned), DistinctOn(grouped);
    hide FirstSeen, DistinctOn, Latest;
    forall key ensures (key in m1 <==> key in m2) && (key in m1 ==> m1[key] == m2[key]) {
      assert Latest(history, key) == if key in m1 then Some(m1[key]) else None;
    }
  }

  lemma SecondOfTwo(a: Action, b: Action)
    requires a.recKey == b.recKey
    ensures FirstSeen([a, b]) == map[a.recKey := a] == DistinctOn([a, b])
  {
    assert [a, b][..1] == [a] && [a][..0] == [];
    assert FirstSeen([]) == map[] == DistinctOn([]);
    assert FirstSeen([a]) == map[a.recKey := a] == DistinctOn([a]);
  }

  /** Two rows of one key at one time: the database may list either first, and both queries then
      return either one, so the current decision is not determined. */
  lemma TiesAreAmbiguous(a: Action, b: Action)
    requires a.recKey == b.recKey && a.createdAt == b.createdAt
    ensures NewestFirst([a, b], [a, b]) && FirstSeen([a, b]) == map[a.recKey := a] == DistinctOn([a, b])
    ensures NewestFirst([b, a], [a, b]) && FirstSeen([b, a]) == map[a.recKey := b] == DistinctOn([b, a])
    ensures GroupedNewestFirst([a, b], [a, b]) && GroupedNewestFirst([b, a], [a, b])
  {
    SecondOfTwo(a, b);
    SecondOfTwo(b, a);
    assert multiset([b, a]) == multiset([a, b]);
  }

  // ----- counting current decisions -----

  function KeysDeciding(latest: map<string, Action>, d: Decision): set<string> {
    set k | k in latest && latest[k].decision == d
  }

  /** Counts the current decision of each recommendation. */
  method CurrentDecisionCounts(latest: map<string, Action>) returns (counts: map<Decision, nat>)
    ensures forall d :: d in counts <==> exists k :: k in latest && latest[k].decision == d
    ensures forall d | d in counts :: counts[d] == |set k | k in latest && latest[k].decision == d|
  {
    counts := map[];
    var todo := latest.Keys;
    while todo != {}
      invariant todo <= latest.Keys
      invariant forall d :: d in counts <==> Counted(latest, d, todo) != {}
      invariant forall d | d in counts :: counts[d] == |Counted(latest, d, todo)|
    {
      var key :| key in todo;
      var d := latest[key].decision;
      forall d' {
        CountOneMore(latest, d', todo, key);
      }
      hide Counted;
      counts := counts[d := (if d in counts then counts[d] else 0) + 1];
      todo := todo - {key};
    }
    forall d ensures Counted(latest, d, {}) == set k | k in latest && latest[k].decision == d {}
    forall d ensures Counted(latest, d, {}) != {} <==> exists k :: k in latest && latest[k].decision == d {
      if k :| k in latest && latest[k].decision == d { assert k in Counted(latest, d, {}); }
    }
  }

  /** The keys deciding `d` that are not still to do. */
  function Counted(latest: map<string, Action>, d: Decision, todo: set<string>): set<string> {
    set k | k in latest && k !in todo && latest[k].decision == d
  }

  lemma CountOneMore(latest: map<string, Action>, d: Decision, todo: set<string>, key: string)
    requires key in todo && key in latest
    ensures var before, after := Counted(latest, d, todo), Counted(latest, d, todo - {key});
      && after == before + (if latest[key].decision == d then {key} else {})
      && |after| == |before| + if latest[key].decision == d then 1 else 0
  {
    var before, after := Counted(latest, d, todo), Counted(latest, d, todo - {key});
    assert key !in before;
    assert after == before + if latest[key].decision == d then {key} else {};
  }

  /** No recommendation is counted twice or lost: the three counts add up to their number. */
  lemma CountsAddUp(latest: map<string, Action>)
    ensures |KeysDeciding(latest, Accepted)| + |KeysDeciding(latest, Modified)| + |KeysDeciding(latest, Rejected)|
         == |latest|
  {
    var a, m, r := KeysDeciding(latest, Accepted), KeysDeciding(latest, Modified), KeysDeciding(latest, Rejected);
    assert latest.Keys == a + m + r;
    assert |a + m| == |a| + |m|;
    assert |(a + m) + r| == |a + m| + |r|;
  }
}
