/** The deterministic KPI checks of one campaign. Money and ratios are exact reals. */
module Findings {
  import opened Wrappers

  datatype Kind = AlertKind | OpportunityKind

  datatype Severity = Low | Medium | High

  datatype Campaign = Campaign(
    id: string,
    spend: real,
    revenue: real,
    leads: int,
    clicks: int,
    impressions: int,
    targetCpl: Option<real>,
    targetCtr: Option<real>,
    budget: real)

  datatype Finding = Finding(
    campaignId: string,
    kind: Kind,
    severity: Severity,
    metric: string,
    threshold: real,
    actual: real,
    recKey: string)

  /** The severity band of a fractional breach. */
  function SeverityFor(overshoot: real): Severity {
    if overshoot >= 0.5 then High else if overshoot >= 0.2 then Medium else Low
  }

  /** A target that is set and not zero. */
  predicate HasTarget(target: Option<real>) {
    target.Some? && target.value != 0.0
  }

  function CplFinding(c: Campaign): seq<Finding> {
    if HasTarget(c.targetCpl) && c.leads != 0 && c.spend / (c.leads as real) > c.targetCpl.value then
      var cpl, target := c.spend / (c.leads as real), c.targetCpl.value;
      [Finding(c.id, AlertKind, SeverityFor((cpl - target) / target), "cpl", target, cpl, "cpl:" + c.id)]
    else []
  }

  function CtrFinding(c: Campaign): seq<Finding> {
    if HasTarget(c.targetCtr) && c.impressions != 0
        && (c.clicks as real) / (c.impressions as real) * 100.0 < c.targetCtr.value then
      var ctr, target := (c.clicks as real) / (c.impressions as real) * 100.0, c.targetCtr.value;
      [Finding(c.id, AlertKind, SeverityFor((target - ctr) / target), "ctr", target, ctr, "ctr:" + c.id)]
    else []
  }

  function BudgetFinding(c: Campaign): seq<Finding> {
    if c.budget != 0.0 && c.spend >= c.budget * 0.9 then
      var severity := if c.spend >= c.budget then High else Medium;
      [Finding(c.id, AlertKind, severity, "budget", c.budget, c.spend, "budget:" + c.id)]
    else []
  }

  function RoasFinding(c: Campaign): seq<Finding> {
    if c.spend != 0.0 && c.revenue / c.spend >= 3.0 then
      [Finding(c.id, OpportunityKind, Medium, "roas", 3.0, c.revenue / c.spend, "roas:" + c.id)]
    else []
  }

  function FindingsFor(c: Campaign): seq<Finding> {
    CplFinding(c) + CtrFinding(c) + BudgetFinding(c) + RoasFinding(c)
  }

  function AllFindings(campaigns: seq<Campaign>): seq<Finding> {
    if campaigns == [] then []
    else AllFindings(campaigns[..|campaigns| - 1]) + FindingsFor(campaigns[|campaigns| - 1])
  }

  /** A quotient compared, without dividing. */
  predicate Exceeds(x: real, d: real, bound: real) {
    if d > 0.0 then x > bound * d else x < bound * d
  }

  /** When each check fires, in products instead of ratios, and exactly for every campaign. */
  lemma FindingsMeaning(c: Campaign)
    ensures CplFinding(c) != [] <==>
      HasTarget(c.targetCpl) && c.leads != 0 && Exceeds(c.spend, c.leads as real, c.targetCpl.value)
    ensures CtrFinding(c) != [] <==>
      HasTarget(c.targetCtr) && c.impressions != 0
      && Exceeds(-100.0 * c.clicks as real, c.impressions as real, -c.targetCtr.value)
    ensures BudgetFinding(c) != [] <==> c.budget != 0.0 && 10.0 * c.spend >= 9.0 * c.budget
    ensures RoasFinding(c) != [] <==> c.spend != 0.0 && !Exceeds(-c.revenue, c.spend, -3.0)
  {
    if c.leads != 0 && HasTarget(c.targetCpl) {
      QuotientAbove(c.spend, c.leads as real, c.targetCpl.value);
    }
    if c.impressions != 0 && HasTarget(c.targetCtr) {
      var clicks, impressions := c.clicks as real, c.impressions as real;
      QuotientAbove(-100.0 * clicks, impressions, -c.targetCtr.value);
      ScaledQuotient(clicks, impressions, -100.0);
    }
    if c.spend != 0.0 {
      QuotientAbove(-c.revenue, c.spend, -3.0);
      ScaledQuotient(c.revenue, c.spend, -1.0);
    }
  }

  /** What a finding says: what was measured, in products instead of ratios, against which bound, and how
      bad it is where that is not a matter of degree. */
  ghost predicate Tells(f: Finding, c: Campaign) {
    && f.campaignId == c.id
    && (f.recKey == "cpl:" + c.id ==>
          f.kind == AlertKind && f.metric == "cpl" && c.targetCpl == Some(f.threshold)
          && f.actual * c.leads as real == c.spend)
    && (f.recKey == "ctr:" + c.id ==>
          f.kind == AlertKind && f.metric == "ctr" && c.targetCtr == Some(f.threshold)
          && f.actual * c.impressions as real == 100.0 * c.clicks as real)
    && (f.recKey == "budget:" + c.id ==>
          f.kind == AlertKind && f.metric == "budget" && f.threshold == c.budget && f.actual == c.spend
          && f.severity == if c.spend >= c.budget then High else Medium)
    && (f.recKey == "roas:" + c.id ==>
          f.kind == OpportunityKind && f.metric == "roas" && f.threshold == 3.0 && f.actual * c.spend == c.revenue
          && f.severity == Medium)
  }

  /** The findings of a pass are those of its campaigns, in their order, and each tells the truth about
      its campaign. */
  lemma {:induction false} FindingsTell(campaigns: seq<Campaign>, more: seq<Campaign>, c: Campaign, f: Finding)
    ensures AllFindings(campaigns + more) == AllFindings(campaigns) + AllFindings(more)
    ensures AllFindings([c]) == CplFinding(c) + CtrFinding(c) + BudgetFinding(c) + RoasFinding(c)
    ensures f in AllFindings([c]) ==> Tells(f, c) && KeyOf(f.recKey, c.id)
    decreases |more|
  {
    hide FindingsFor;
    if more == [] {
      assert campaigns + more == campaigns;
      OneCampaignTells(c, f);
    } else {
      var front := more[..|more| - 1];
      assert (campaigns + more)[..|campaigns + more| - 1] == campaigns + front;
      FindingsTell(campaigns, front, c, f);
    }
  }

  lemma OneCampaignTells(c: Campaign, f: Finding)
    ensures AllFindings([c]) == CplFinding(c) + CtrFinding(c) + BudgetFinding(c) + RoasFinding(c)
    ensures f in AllFindings([c]) ==> Tells(f, c) && KeyOf(f.recKey, c.id)
  {
    assert [c][..0] == [];
    FindingsOfOne(c);
    CplTells(c);
    CtrTells(c);
    BudgetTells(c);
    RoasTells(c);
    hide KeyOf, Tells, CplFinding, CtrFinding, BudgetFinding, RoasFinding;
  }

  lemma CplTells(c: Campaign)
    ensures forall f | f in CplFinding(c) :: Tells(f, c)
  {
    KeyHeads(c.id);
  }

  lemma CtrTells(c: Campaign)
    ensures forall f | f in CtrFinding(c) :: Tells(f, c)
  {
    KeyHeads(c.id);
    if c.impressions != 0 {
      var q := c.clicks as real / c.impressions as real;
      assert q * 100.0 * c.impressions as real == 100.0 * (q * c.impressions as real);
    }
  }

  lemma BudgetTells(c: Campaign)
    ensures forall f | f in BudgetFinding(c) :: Tells(f, c)
  {
    KeyHeads(c.id);
  }

  lemma RoasTells(c: Campaign)
    ensures forall f | f in RoasFinding(c) :: Tells(f, c)
  {
    KeyHeads(c.id);
  }

  lemma KeyHeads(id: string)
    ensures var a, b, d, e := "cpl:" + id, "ctr:" + id, "budget:" + id, "roas:" + id;
            a != b && a != d && a != e && b != d && b != e && d != e
  {
    assert ("cpl:" + id)[1] == 'p' && ("ctr:" + id)[1] == 't';
    assert ("cpl:" + id)[0] == 'c' && ("ctr:" + id)[0] == 'c' && ("budget:" + id)[0] == 'b' && ("roas:" + id)[0] == 'r';
  }

  /** The severity of a cost-per-lead finding: how far spend is above what the leads allow. */
  lemma CplSeverity(c: Campaign)
    requires CplFinding(c) != [] && c.leads > 0 && c.targetCpl.value > 0.0
    ensures var allowed := c.targetCpl.value * c.leads as real;
            CplFinding(c)[0].severity ==
              if c.spend >= 1.5 * allowed then High else if c.spend >= 1.2 * allowed then Medium else Low
  {
    var target, leads := c.targetCpl.value, c.leads as real;
    var cpl := c.spend / leads;
    QuotientBelow(c.spend, leads, 1.5 * target);
    QuotientBelow(c.spend, leads, 1.2 * target);
    QuotientBelow(cpl - target, target, 0.5);
    QuotientBelow(cpl - target, target, 0.2);
    assert 1.5 * target * leads == 1.5 * (target * leads) && 1.2 * target * leads == 1.2 * (target * leads);
  }

  /** The severity of a click-through finding: how far clicks are below what the target asks. */
  lemma CtrSeverity(c: Campaign)
    requires CtrFinding(c) != [] && c.impressions > 0 && c.targetCtr.value > 0.0
    ensures var asked := c.targetCtr.value * c.impressions as real;
            CtrFinding(c)[0].severity ==
              if 100.0 * c.clicks as real <= 0.5 * asked then High
              else if 100.0 * c.clicks as real <= 0.8 * asked then Medium else Low
  {
    var target, clicks, impressions := c.targetCtr.value, c.clicks as real, c.impressions as real;
    var ctr := clicks / impressions * 100.0;
    ScaledQuotient(clicks, impressions, -100.0);
    QuotientBelow(-100.0 * clicks, impressions, -0.5 * target);
    QuotientBelow(-100.0 * clicks, impressions, -0.8 * target);
    QuotientBelow(target - ctr, target, 0.5);
    QuotientBelow(target - ctr, target, 0.2);
    assert -0.5 * target * impressions == -0.5 * (target * impressions);
    assert -0.8 * target * impressions == -0.8 * (target * impressions);
  }

  lemma QuotientAbove(x: real, d: real, bound: real)
    requires d != 0.0
    ensures x / d > bound <==> Exceeds(x, d, bound)
  {
    var q := x / d;
    assert x == q * d;
    ProductOrder(q, bound, d);
  }

  lemma QuotientBelow(x: real, d: real, bound: real)
    requires d > 0.0
    ensures x / d >= bound <==> x >= bound * d
  {
    var q := x / d;
    assert x == q * d;
    ProductOrder(bound, q, d);
  }

  lemma ProductOrder(p: real, q: real, d: real)
    ensures d > 0.0 ==> (p > q <==> p * d > q * d)
    ensures d < 0.0 ==> (p > q <==> p * d < q * d)
  {
    assert (p - q) * d == p * d - q * d;
    if d != 0.0 {
      if p > q {
        if d > 0.0 { assert (p - q) * d > 0.0; } else { assert (p - q) * -d > 0.0; }
      } else {
        if d > 0.0 { assert (q - p) * d >= 0.0; } else { assert (q - p) * -d >= 0.0; }
      }
    }
  }

  lemma ScaledQuotient(x: real, d: real, k: real)
    requires d != 0.0
    ensures (k * x) / d == x / d * k
  {
    var q := x / d;
    assert x == q * d;
    assert k * x == (q * k) * d;
  }

  // ----- finding keys are distinct -----

  ghost predicate DistinctIds(campaigns: seq<Campaign>) {
    forall i, j | 0 <= i < j < |campaigns| :: campaigns[i].id != campaigns[j].id
  }

  ghost predicate DistinctKeys(findings: seq<Finding>) {
    forall i, j | 0 <= i < j < |findings| :: findings[i].recKey != findings[j].recKey
  }

  /** A key names its metric and campaign. */
  ghost predicate KeyOf(key: string, id: string) {
    key == "cpl:" + id || key == "ctr:" + id || key == "budget:" + id || key == "roas:" + id
  }

  lemma KeyNamesCampaign(key: string, id1: string, id2: string)
    requires KeyOf(key, id1) && KeyOf(key, id2)
    ensures id1 == id2
  {
    KeySuffix(key, id1);
    KeySuffix(key, id2);
  }

  lemma KeySuffix(key: string, id: string)
    requires KeyOf(key, id)
    ensures key != [] && if key[0] == 'b' then |key| >= 7 && id == key[7..]
            else if key[0] == 'r' then |key| >= 5 && id == key[5..]
            else |key| >= 4 && id == key[4..]
  {
    assert ("cpl:" + id)[4..] == id && ("ctr:" + id)[4..] == id;
    assert ("budget:" + id)[7..] == id && ("roas:" + id)[5..] == id;
  }

  lemma FindingsOfOne(c: Campaign)
    ensures DistinctKeys(FindingsFor(c))
    ensures forall f | f in FindingsFor(c) :: f.campaignId == c.id && KeyOf(f.recKey, c.id) && f.recKey != ""
  {
    assert ("cpl:" + c.id)[1] == 'p' && ("ctr:" + c.id)[1] == 't';
    assert ("cpl:" + c.id)[0] == 'c' && ("ctr:" + c.id)[0] == 'c' && ("budget:" + c.id)[0] == 'b'
        && ("roas:" + c.id)[0] == 'r';
  }

  /** Campaigns with distinct ids never raise two findings with one key. */
  lemma {:induction false} FindingKeysDistinct(campaigns: seq<Campaign>)
    requires DistinctIds(campaigns)
    ensures DistinctKeys(AllFindings(campaigns))
    ensures forall f | f in AllFindings(campaigns) :: f.recKey != ""
    ensures forall f | f in AllFindings(campaigns) ::
              exists i :: 0 <= i < |campaigns| && KeyOf(f.recKey, campaigns[i].id)
  {
    hide FindingsFor;
    if campaigns != [] {
      var front, last := campaigns[..|campaigns| - 1], campaigns[|campaigns| - 1];
      FindingKeysDistinct(front);
      FindingsOfOne(last);
      var a, b := AllFindings(front), FindingsFor(last);
      forall f, g | f in a && g in b ensures f.recKey != g.recKey {
        var i :| 0 <= i < |front| && KeyOf(f.recKey, front[i].id);
        if f.recKey == g.recKey {
          KeyNamesCampaign(f.recKey, front[i].id, last.id);
        }
      }
      forall f | f in a + b ensures exists i :: 0 <= i < |campaigns| && KeyOf(f.recKey, campaigns[i].id) {
        if f in a {
          var i :| 0 <= i < |front| && KeyOf(f.recKey, front[i].id);
          assert KeyOf(f.recKey, campaigns[i].id);
        } else {
          assert KeyOf(f.recKey, campaigns[|campaigns| - 1].id);
        }
      }
      assert DistinctKeys(a + b);
    }
  }
}
