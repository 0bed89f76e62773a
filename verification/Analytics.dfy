/** Daily analytics facts: the batch upsert, the aggregations over the table, and the
    lifetime rollup kept on the client row. Money is in whole cents. */
module Analytics {
  import opened Wrappers
  import opened Rounding

  /** The unique constraint of the table. */
  datatype Cell = Cell(client: string, date: int, platform: string)

  datatype Metrics = Metrics(impressions: int, clicks: int, conversions: int, leads: int, spend: int, revenue: int)

  datatype Facts = Facts(metrics: Metrics, source: string)

  type Table = map<Cell, Facts>

  datatype RowIn = RowIn(date: int, platform: string, metrics: Metrics)

  const ZERO := Metrics(0, 0, 0, 0, 0, 0)

  function Plus(a: Metrics, b: Metrics): Metrics {
    Metrics(a.impressions + b.impressions, a.clicks + b.clicks, a.conversions + b.conversions,
            a.leads + b.leads, a.spend + b.spend, a.revenue + b.revenue)
  }

  function CellOf(client: string, row: RowIn): Cell {
    Cell(client, row.date, row.platform)
  }

  // ----- upserting -----

  /** The row-by-row loop the batch statement stands for: the last write to a cell wins. */
  function OneByOne(t: Table, client: string, rows: seq<RowIn>, source: string): Table {
    if rows == [] then t
    else
      var last := rows[|rows| - 1];
      OneByOne(t, client, rows[..|rows| - 1], source)[CellOf(client, last) := Facts(last.metrics, source)]
  }

  function CellsOf(client: string, rows: seq<RowIn>): set<Cell> {
    set i | 0 <= i < |rows| :: CellOf(client, rows[i])
  }

  lemma {:induction false} OneByOneAppends(t: Table, client: string, rows: seq<RowIn>, source: string)
    ensures OneByOne(t, client, rows, source) == t + OneByOne(map[], client, rows, source)
    ensures OneByOne(map[], client, rows, source).Keys == CellsOf(client, rows)
  {
    if rows != [] {
      OneByOneAppends(t, client, rows[..|rows| - 1], source);
      CellsOfLast(client, rows);
      hide CellsOf;
    }
  }

  lemma CellsOfLast(client: string, rows: seq<RowIn>)
    requires rows != []
    ensures CellsOf(client, rows) == CellsOf(client, rows[..|rows| - 1]) + {CellOf(client, rows[|rows| - 1])}
  {
    var front := rows[..|rows| - 1];
    hide CellOf;
    forall c
      ensures c in CellsOf(client, rows) <==> c in CellsOf(client, front) || c == CellOf(client, rows[|rows| - 1])
    {
      if i :| 0 <= i < |rows| && c == CellOf(client, rows[i]) {
        if i < |front| { assert front[i] == rows[i]; }
      }
      if i :| 0 <= i < |front| && c == CellOf(client, front[i]) { assert rows[i] == front[i]; }
    }
  }

  /** Upserting the same batch again changes nothing. */
  lemma UpsertIdempotent(t: Table, client: string, rows: seq<RowIn>, source: string)
    ensures OneByOne(OneByOne(t, client, rows, source), client, rows, source) == OneByOne(t, client, rows, source)
  {
    OneByOneAppends(t, client, rows, source);
    OneByOneAppends(OneByOne(t, client, rows, source), client, rows, source);
  }

  /** Each cell of the batch ends up with the facts of its last row. */
  lemma {:induction false} LastRowWins(t: Table, client: string, rows: seq<RowIn>, source: string, i: nat)
    requires i < |rows|
    requires forall j | i < j < |rows| :: rows[j].date != rows[i].date || rows[j].platform != rows[i].platform
    ensures Cell(client, rows[i].date, rows[i].platform) in OneByOne(t, client, rows, source)
    ensures OneByOne(t, client, rows, source)[Cell(client, rows[i].date, rows[i].platform)]
         == Facts(rows[i].metrics, source)
  {
    if i < |rows| - 1 {
      LastRowWins(t, client, rows[..|rows| - 1], source, i);
    }
  }

  /** No other cell changes. */
  lemma {:induction false} OtherCellsStay(t: Table, client: string, rows: seq<RowIn>, source: string, c: Cell)
    requires forall i | 0 <= i < |rows| :: c != Cell(client, rows[i].date, rows[i].platform)
    ensures c in OneByOne(t, client, rows, source) <==> c in t
    ensures c in t ==> OneByOne(t, client, rows, source)[c] == t[c]
  {
    if rows != [] {
      OtherCellsStay(t, client, rows[..|rows| - 1], source, c);
    }
  }

  // ----- sums, over tables keyed in any way -----

  /** The metric totals of some keys. */
  ghost function SumOf<K(!new)>(t: map<K, Facts>, keys: set<K>): Metrics
    requires keys <= t.Keys
  {
    if keys == {} then ZERO
    else
      var k :| k in keys;
      Plus(t[k].metrics, SumOf(t, keys - {k}))
  }

  lemma PlusSwaps(a: Metrics, b: Metrics, c: Metrics)
    ensures Plus(a, Plus(b, c)) == Plus(b, Plus(a, c)) && Plus(a, Plus(b, c)) == Plus(Plus(a, b), c)
        && Plus(a, b) == Plus(b, a)
    ensures Plus(ZERO, a) == a
  {
  }

  lemma {:induction false} SumPick<K(!new)>(t: map<K, Facts>, keys: set<K>, k: K)
    requires keys <= t.Keys && k in keys
    ensures SumOf(t, keys) == Plus(t[k].metrics, SumOf(t, keys - {k}))
    decreases |keys|
  {
    var d :| d in keys && SumOf(t, keys) == Plus(t[d].metrics, SumOf(t, keys - {d}));
    if d != k {
      var rest := keys - {k} - {d};
      assert keys - {d} - {k} == rest;
      SumPick(t, keys - {d}, k);
      SumPick(t, keys - {k}, d);
      PlusSwaps(t[d].metrics, t[k].metrics, SumOf(t, rest));
    }
  }

  lemma {:induction false} SumUnion<K(!new)>(t: map<K, Facts>, a: set<K>, b: set<K>)
    requires a <= t.Keys && b <= t.Keys && a !! b
    ensures SumOf(t, a + b) == Plus(SumOf(t, a), SumOf(t, b))
    decreases |a|
  {
    if a == {} {
      assert a + b == b;
      PlusSwaps(SumOf(t, b), ZERO, ZERO);
    } else {
      var k :| k in a;
      assert a + b - {k} == (a - {k}) + b;
      SumPick(t, a, k);
      SumPick(t, a + b, k);
      SumUnion(t, a - {k}, b);
      PlusSwaps(t[k].metrics, SumOf(t, a - {k}), SumOf(t, b));
    }
  }

  lemma {:induction false} SumSame<K(!new)>(t: map<K, Facts>, t': map<K, Facts>, keys: set<K>)
    requires keys <= t.Keys && keys <= t'.Keys && forall k | k in keys :: t[k].metrics == t'[k].metrics
    ensures SumOf(t, keys) == SumOf(t', keys)
    decreases |keys|
  {
    if keys != {} {
      var k :| k in keys;
      SumPick(t, keys, k);
      SumPick(t', keys, k);
      SumSame(t, t', keys - {k});
    }
  }

  /** The total of a grouped result. */
  ghost function SumGroups<G(!new)>(groups: map<G, Metrics>, keys: set<G>): Metrics
    requires keys <= groups.Keys
  {
    if keys == {} then ZERO
    else
      var g :| g in keys;
      Plus(groups[g], SumGroups(groups, keys - {g}))
  }

  ghost function WithKey<K, G>(keys: set<K>, key: K -> G, g: G): set<K> {
    set k | k in keys && key(k) == g
  }

  /** Each group's total under its key, and no empty group. */
  ghost predicate GroupedBy<K(!new), G(!new)>(t: map<K, Facts>, keys: set<K>, key: K -> G, groups: map<G, Metrics>)
    requires keys <= t.Keys
  {
    && (forall g :: g in groups <==> WithKey(keys, key, g) != {})
    && (forall g | g in groups :: groups[g] == SumOf(t, WithKey(keys, key, g)))
  }

  /** The keys that fall into some of the groups. */
  ghost function InGroups<K, G>(keys: set<K>, key: K -> G, some: set<G>): set<K> {
    set k | k in keys && key(k) in some
  }

  lemma SplitGroup<K(!new), G(!new)>(keys: set<K>, key: K -> G, some: set<G>, g: G)
    requires g in some
    ensures InGroups(keys, key, some) == WithKey(keys, key, g) + InGroups(keys, key, some - {g})
    ensures WithKey(keys, key, g) !! InGroups(keys, key, some - {g})
    ensures WithKey(keys, key, g) <= keys && InGroups(keys, key, some - {g}) <= keys
  {
  }

  /** The groups' totals add up to the total of all their rows. */
  lemma {:induction false} GroupsAddUp<K(!new), G(!new)>(t: map<K, Facts>, keys: set<K>, key: K -> G,
                                                         groups: map<G, Metrics>, some: set<G>)
    requires keys <= t.Keys && GroupedBy(t, keys, key, groups) && some <= groups.Keys
    ensures InGroups(keys, key, some) <= t.Keys && SumGroups(groups, some) == SumOf(t, InGroups(keys, key, some))
    decreases |some|
  {
    if some == {} {
      assert InGroups(keys, key, some) == {};
    } else {
      var g :| g in some && SumGroups(groups, some) == Plus(groups[g], SumGroups(groups, some - {g}));
      assert groups[g] == SumOf(t, WithKey(keys, key, g));
      GroupsAddUp(t, keys, key, groups, some - {g});
      SplitGroup(keys, key, some, g);
      hide InGroups, WithKey, SumGroups, SumOf, GroupedBy;
      SumUnion(t, WithKey(keys, key, g), InGroups(keys, key, some - {g}));
    }
  }

  lemma AllGroupsAddUp<K(!new), G(!new)>(t: map<K, Facts>, keys: set<K>, key: K -> G, groups: map<G, Metrics>)
    requires keys <= t.Keys && GroupedBy(t, keys, key, groups)
    ensures SumGroups(groups, groups.Keys) == SumOf(t, keys)
  {
    GroupsAddUp(t, keys, key, groups, groups.Keys);
    forall k | k in keys ensures key(k) in groups {
      assert k in WithKey(keys, key, key(k));
    }
    assert InGroups(keys, key, groups.Keys) == keys;
  }

  /** A row joins its group. */
  lemma GroupOneMore<K(!new), G(!new)>(t: map<K, Facts>, keys: set<K>, key: K -> G, groups: map<G, Metrics>, k: K)
    requires keys <= t.Keys && GroupedBy(t, keys, key, groups) && k in t && k !in keys
    ensures var before := if key(k) in groups then groups[key(k)] else ZERO;
      GroupedBy(t, keys + {k}, key, groups[key(k) := Plus(before, t[k].metrics)])
  {
    hide WithKey, SumOf;
    var before := if key(k) in groups then groups[key(k)] else ZERO;
    forall g {
      JoinsGroup(keys, key, k, g);
    }
    GroupGrows(t, keys, key, k);
    assert before == SumOf(t, WithKey(keys, key, key(k))) by { EmptySum(t, WithKey(keys, key, key(k))); }
  }

  lemma JoinsGroup<K, G>(keys: set<K>, key: K -> G, k: K, g: G)
    ensures WithKey(keys + {k}, key, g) == if key(k) == g then WithKey(keys, key, g) + {k} else WithKey(keys, key, g)
  {
  }

  lemma EmptySum<K(!new)>(t: map<K, Facts>, keys: set<K>)
    requires keys <= t.Keys
    ensures keys == {} ==> SumOf(t, keys) == ZERO
  {
  }

  lemma GroupGrows<K(!new), G(!new)>(t: map<K, Facts>, keys: set<K>, key: K -> G, k: K)
    requires keys <= t.Keys && k in t && k !in keys
    ensures WithKey(keys + {k}, key, key(k)) <= t.Keys
    ensures SumOf(t, WithKey(keys + {k}, key, key(k))) == Plus(SumOf(t, WithKey(keys, key, key(k))), t[k].metrics)
  {
    var grown := WithKey(keys + {k}, key, key(k));
    assert k in grown && grown - {k} == WithKey(keys, key, key(k));
    SumPick(t, grown, k);
    PlusSwaps(t[k].metrics, SumOf(t, WithKey(keys, key, key(k))), ZERO);
  }

  // ----- scoped aggregations -----

  datatype Scope = Scope(start: Option<int>, end: Option<int>, platform: Option<string>)

  const EVERYTHING := Scope(None, None, None)

  predicate InScope(c: Cell, client: string, s: Scope) {
    && c.client == client
    && (s.start.Some? ==> c.date >= s.start.value)
    && (s.end.Some? ==> c.date <= s.end.value)
    && (s.platform.Some? ==> c.platform == s.platform.value)
  }

  function ScopedCells(t: Table, client: string, s: Scope): set<Cell> {
    set c | c in t && InScope(c, client, s)
  }

  // ----- the repository and the service -----

  /** Lifetime figures on the client row; spend and cost per lead in cents. */
  datatype Rollup = Rollup(spendTotal: int, leadsTotal: int, cpl: int)

  function RollupOf(totals: Metrics): Rollup {
    Rollup(totals.spend, totals.leads,
           if totals.leads != 0 then RoundHalfEven(totals.spend as real / totals.leads as real) else 0)
  }

  /** The stored cost per lead times the leads is the stored spend, up to half a cent a lead, and nothing
      when there are no leads. */
  lemma CostPerLead(totals: Metrics)
    requires totals.leads >= 0
    ensures var r := RollupOf(totals);
            && r.spendTotal == totals.spend && r.leadsTotal == totals.leads
            && (if totals.leads == 0 then r.cpl == 0
                else -r.leadsTotal <= 2 * (r.cpl * r.leadsTotal - r.spendTotal) <= r.leadsTotal)
  {
    if totals.leads > 0 {
      var exact := totals.spend as real / totals.leads as real;
      RoundNearest(exact);
      hide RoundHalfEven;
      NearestQuotient(totals.spend, totals.leads, RoundHalfEven(exact));
    }
  }

  lemma NearestQuotient(spend: int, leads: int, n: int)
    requires leads > 0 && -0.5 <= n as real - spend as real / leads as real <= 0.5
    ensures -leads <= 2 * (n * leads - spend) <= leads
  {
    var exact := spend as real / leads as real;
    assert exact * leads as real == spend as real;
    ProductAsReal(n, leads);
    Scaled(n as real, exact, leads as real, (n * leads) as real, spend as real);
    WithinHalf(n * leads, spend, leads);
  }

  lemma ProductAsReal(n: int, leads: int)
    ensures n as real * leads as real == (n * leads) as real
  {
  }

  lemma WithinHalf(product: int, spend: int, leads: int)
    requires -0.5 * leads as real <= product as real - spend as real <= 0.5 * leads as real
    ensures -leads <= 2 * (product - spend) <= leads
  {
    assert (2 * (product - spend)) as real == 2.0 * (product as real - spend as real);
  }

  lemma Scaled(n: real, exact: real, leads: real, product: real, spend: real)
    requires leads > 0.0 && -0.5 <= n - exact <= 0.5 && product == n * leads && spend == exact * leads
    ensures -0.5 * leads <= product - spend <= 0.5 * leads
  {
    ProductOrder(n - 0.5, exact, leads, product - 0.5 * leads, spend);
    ProductOrder(exact, n + 0.5, leads, spend, product + 0.5 * leads);
  }

  lemma ProductOrder(x: real, y: real, d: real, xd: real, yd: real)
    requires x <= y && d > 0.0 && xd == x * d && yd == y * d
    ensures xd <= yd
  {
    var e := y - x;
    assert e * d >= 0.0;
    assert yd == xd + e * d;
  }

  class AnalyticsService {
    var facts: Table
    var clients: map<string, Rollup>

    constructor (clients: map<string, Rollup>)
      ensures facts == map[] && this.clients == clients
    {
      facts, this.clients := map[], clients;
    }

    method BulkUpsert(client: string, rows: seq<RowIn>, source: string) returns (count: nat)
      modifies this`facts
      ensures facts == OneByOne(old(facts), client, rows, source)
      ensures count == |CellsOf(client, rows)|
    {
      if rows == [] {
        return 0;
      }
      var dedup := Dedup(client, rows, source);
      OneByOneAppends(facts, client, rows, source);
      AsTableSize(client, dedup);
      hide OneByOne, CellsOf;
      facts := facts + AsTable(client, dedup);
      return |dedup|;
    }

    /** The batch dict: a later row for the same date and platform replaces an earlier one. */
    static method Dedup(client: string, rows: seq<RowIn>, source: string) returns (dedup: map<(int, string), Facts>)
      ensures AsTable(client, dedup) == OneByOne(map[], client, rows, source)
    {
      dedup := map[];
      for i := 0 to |rows|
        invariant AsTable(client, dedup) == OneByOne(map[], client, rows[..i], source)
      {
        assert rows[..i + 1][..i] == rows[..i];
        DedupStep(client, dedup, rows[i], source);
        hide AsTable;
        dedup := dedup[(rows[i].date, rows[i].platform) := Facts(rows[i].metrics, source)];
      }
      assert rows[..|rows|] == rows;
    }

    /** Sums the scoped rows, one by one. */
    method Totals(client: string, scope: Scope) returns (totals: Metrics)
      ensures totals == SumOf(facts, ScopedCells(facts, client, scope))
    {
      totals := Sum(ScopedCells(facts, client, scope));
    }

    method Sum(cells: set<Cell>) returns (totals: Metrics)
      requires cells <= facts.Keys
      ensures totals == SumOf(facts, cells)
    {
      totals := ZERO;
      var todo := cells;
      PlusSwaps(SumOf(facts, cells), ZERO, ZERO);
      while todo != {}
        invariant todo <= cells
        invariant Plus(totals, SumOf(facts, todo)) == SumOf(facts, cells)
      {
        var c :| c in todo;
        SumPick(facts, todo, c);
        PlusSwaps(totals, facts[c].metrics, SumOf(facts, todo - {c}));
        hide SumOf;
        totals := Plus(totals, facts[c].metrics);
        todo := todo - {c};
      }
      PlusSwaps(totals, ZERO, ZERO);
    }

    /** `GROUP BY platform`; this query takes no platform filter. */
    method ByPlatform(client: string, start: Option<int>, end: Option<int>) returns (groups: map<string, Metrics>)
      ensures GroupedBy(facts, ScopedCells(facts, client, Scope(start, end, None)), (c: Cell) => c.platform, groups)
    {
      groups := Grouped(ScopedCells(facts, client, Scope(start, end, None)), (c: Cell) => c.platform);
    }

    /** `GROUP BY date`. */
    method DailySeries(client: string, scope: Scope) returns (groups: map<int, Metrics>)
      ensures GroupedBy(facts, ScopedCells(facts, client, scope), (c: Cell) => c.date, groups)
    {
      groups := Grouped(ScopedCells(facts, client, scope), (c: Cell) => c.date);
    }

    method Grouped<G(==, !new)>(cells: set<Cell>, key: Cell -> G) returns (groups: map<G, Metrics>)
      requires cells <= facts.Keys
      ensures GroupedBy(facts, cells, key, groups)
    {
      groups := map[];
      var done, todo := {}, cells;
      assert forall g :: WithKey({}, key, g) == {};
      while todo != {}
        invariant done !! todo && done + todo == cells
        invariant GroupedBy(facts, done, key, groups)
        decreases todo
      {
        hide GroupedBy;
        var c :| c in todo;
        GroupOneMore(facts, done, key, groups, c);
        var before := if key(c) in groups then groups[key(c)] else ZERO;
        groups := groups[key(c) := Plus(before, facts[c].metrics)];
        done, todo := done + {c}, todo - {c};
      }
      assert done == cells;
    }

    method RefreshClientRollups(client: string)
      modifies this`clients
      ensures clients == if client !in old(clients) then old(clients)
                         else old(clients)[client := RollupOf(SumOf(facts, ScopedCells(facts, client, EVERYTHING)))]
    {
      if client !in clients {
        return;
      }
      var totals := Totals(client, EVERYTHING);
      var cpl := 0;
      if totals.leads != 0 {
        cpl := RoundHalfEven(totals.spend as real / totals.leads as real);
      }
      clients := clients[client := Rollup(totals.spend, totals.leads, cpl)];
    }

    method Ingest(client: string, rows: seq<RowIn>, source: string) returns (upserted: nat)
      modifies this
      ensures upserted == |CellsOf(client, rows)|
      ensures Database(facts, clients) == IngestStep(Database(old(facts), old(clients)), client, rows, source)
    {
      upserted := BulkUpsert(client, rows, source);
      RefreshClientRollups(client);
    }
  }

  /** The batch dict as rows of the table. */
  function AsTable(client: string, dedup: map<(int, string), Facts>): Table {
    map k | k in dedup :: Cell(client, k.0, k.1) := dedup[k]
  }

  lemma DedupStep(client: string, dedup: map<(int, string), Facts>, row: RowIn, source: string)
    ensures AsTable(client, dedup[(row.date, row.platform) := Facts(row.metrics, source)])
         == AsTable(client, dedup)[CellOf(client, row) := Facts(row.metrics, source)]
  {
    var k := (row.date, row.platform);
    var dedup' := dedup[k := Facts(row.metrics, source)];
    assert k in dedup' && CellOf(client, row) in AsTable(client, dedup');
  }

  lemma {:induction false} AsTableSize(client: string, dedup: map<(int, string), Facts>)
    ensures |AsTable(client, dedup)| == |dedup|
    decreases |dedup|
  {
    if dedup == map[] {
      assert AsTable(client, dedup) == map[];
    } else {
      var k :| k in dedup;
      var rest := dedup - {k};
      AsTableSize(client, rest);
      assert AsTable(client, dedup).Keys == AsTable(client, rest).Keys + {Cell(client, k.0, k.1)};
      assert dedup.Keys == rest.Keys + {k};
    }
  }

  // ----- the rollup over runs -----

  datatype Database = Database(facts: Table, clients: map<string, Rollup>)

  ghost function IngestStep(d: Database, client: string, rows: seq<RowIn>, source: string): Database {
    var t := OneByOne(d.facts, client, rows, source);
    Database(t, if client !in d.clients then d.clients
                else d.clients[client := RollupOf(SumOf(t, ScopedCells(t, client, EVERYTHING)))])
  }

  /** All rows of a client. */
  ghost function RowsOf(t: Table, client: string): set<Cell> {
    set c | c in t && c.client == client
  }

  /** Every client's stored figures are those of its rows in the table. */
  ghost predicate InStep(d: Database) {
    forall client | client in d.clients :: d.clients[client] == RollupOf(SumOf(d.facts, RowsOf(d.facts, client)))
  }

  /** Ingesting for one client leaves every other client's rows, and so its totals, alone. */
  lemma OthersUntouched(t: Table, client: string, rows: seq<RowIn>, source: string, other: string, s: Scope)
    requires other != client
    ensures var t' := OneByOne(t, client, rows, source);
      && ScopedCells(t', other, s) == ScopedCells(t, other, s)
      && SumOf(t', ScopedCells(t', other, s)) == SumOf(t, ScopedCells(t, other, s))
  {
    OneByOneAppends(t, client, rows, source);
    var t' := OneByOne(t, client, rows, source);
    assert forall c | c in CellsOf(client, rows) :: c.client == client;
    assert ScopedCells(t', other, s) == ScopedCells(t, other, s);
    SumSame(t, t', ScopedCells(t, other, s));
  }

  lemma IngestKeepsInStep(d: Database, client: string, rows: seq<RowIn>, source: string)
    requires InStep(d)
    ensures InStep(IngestStep(d, client, rows, source))
  {
    var d' := IngestStep(d, client, rows, source);
    forall other | other in d'.clients
      ensures d'.clients[other] == RollupOf(SumOf(d'.facts, RowsOf(d'.facts, other)))
    {
      assert RowsOf(d.facts, other) == ScopedCells(d.facts, other, EVERYTHING);
      assert RowsOf(d'.facts, other) == ScopedCells(d'.facts, other, EVERYTHING);
      if other != client {
        OthersUntouched(d.facts, client, rows, source, other, EVERYTHING);
      }
    }
  }

  datatype Batch = Batch(client: string, rows: seq<RowIn>, source: string)

  ghost function AfterIngests(d: Database, batches: seq<Batch>): Database
    decreases |batches|
  {
    if batches == [] then d
    else AfterIngests(IngestStep(d, batches[0].client, batches[0].rows, batches[0].source), batches[1..])
  }

  /** After any sequence of ingests every client's stored spend, leads and cost per lead
      are those of its rows. */
  lemma {:induction false} RollupsStayInStep(d: Database, batches: seq<Batch>)
    requires InStep(d)
    ensures InStep(AfterIngests(d, batches))
    decreases |batches|
  {
    if batches != [] {
      IngestKeepsInStep(d, batches[0].client, batches[0].rows, batches[0].source);
      RollupsStayInStep(IngestStep(d, batches[0].client, batches[0].rows, batches[0].source), batches[1..]);
    }
  }

  /** The per-platform and the per-day breakdowns each add up to the totals of the same
      period; the stored lifetime figures are those sums with no period set. */
  lemma BreakdownsAddUp(t: Table, client: string, start: Option<int>, end: Option<int>,
                        platforms: map<string, Metrics>, days: map<int, Metrics>)
    requires GroupedBy(t, ScopedCells(t, client, Scope(start, end, None)), (c: Cell) => c.platform, platforms)
    requires GroupedBy(t, ScopedCells(t, client, Scope(start, end, None)), (c: Cell) => c.date, days)
    ensures SumGroups(platforms, platforms.Keys) == SumOf(t, ScopedCells(t, client, Scope(start, end, None)))
    ensures SumGroups(days, days.Keys) == SumGroups(platforms, platforms.Keys)
  {
    AllGroupsAddUp(t, ScopedCells(t, client, Scope(start, end, None)), (c: Cell) => c.platform, platforms);
    AllGroupsAddUp(t, ScopedCells(t, client, Scope(start, end, None)), (c: Cell) => c.date, days);
  }

  /** Asking for one platform gives that platform's group, and nothing if it has none. */
  lemma PlatformTotalsMatch(t: Table, client: string, start: Option<int>, end: Option<int>,
                            platforms: map<string, Metrics>, p: string)
    requires GroupedBy(t, ScopedCells(t, client, Scope(start, end, None)), (c: Cell) => c.platform, platforms)
    ensures SumOf(t, ScopedCells(t, client, Scope(start, end, Some(p))))
         == if p in platforms then platforms[p] else ZERO
  {
    var some := WithKey(ScopedCells(t, client, Scope(start, end, None)), (c: Cell) => c.platform, p);
    assert ScopedCells(t, client, Scope(start, end, Some(p))) == some;
    EmptySum(t, some);
  }

  /** Asking for one day of the period gives that day's group, and nothing if it has none; the series has
      no other days. */
  lemma DayTotalsMatch(t: Table, client: string, scope: Scope, days: map<int, Metrics>, d: int)
    requires GroupedBy(t, ScopedCells(t, client, scope), (c: Cell) => c.date, days)
    ensures if (scope.start.Some? ==> scope.start.value <= d) && (scope.end.Some? ==> d <= scope.end.value) then
              SumOf(t, ScopedCells(t, client, Scope(Some(d), Some(d), scope.platform)))
              == if d in days then days[d] else ZERO
            else d !in days
  {
    var some := WithKey(ScopedCells(t, client, scope), (c: Cell) => c.date, d);
    if (scope.start.Some? ==> scope.start.value <= d) && (scope.end.Some? ==> d <= scope.end.value) {
      assert ScopedCells(t, client, Scope(Some(d), Some(d), scope.platform)) == some;
      EmptySum(t, some);
    } else {
      assert some == {};
    }
  }
}
