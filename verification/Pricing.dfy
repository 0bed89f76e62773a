/** The cost calculator. Amounts are exact micro-dollars: a rate in dollars per million
    tokens is a rate in micro-dollars per token. */
module Pricing {
  import opened Wrappers
  import opened Rounding

  datatype ModelRate = ModelRate(input: real, output: real, cacheWrite: real, cacheRead: real)

  /** A catalog entry; an unpublished price is absent. */
  datatype CatalogModel = CatalogModel(input: Option<real>, output: Option<real>, cacheWrite: Option<real>,
                                       cacheRead: Option<real>)

  datatype UsageBreakdown = UsageBreakdown(inputTokens: int, outputTokens: int, cacheWriteTokens: int,
                                           cacheReadTokens: int)

  /** Costs in whole micro-dollars. */
  datatype CostBreakdown = CostBreakdown(inputCost: int, outputCost: int, cacheCost: int, totalCost: int, priced: bool)

  /** `price or fallback`: a zero price is replaced just like a missing one. */
  function OrElse(price: Option<real>, fallback: real): real {
    if price.Some? && price.value != 0.0 then price.value else fallback
  }

  function GetRate(overrides: map<string, ModelRate>, catalog: map<string, CatalogModel>,
                   model: string): Option<ModelRate> {
    if model in overrides then Some(overrides[model])
    else if model !in catalog || catalog[model].input.None? then None
    else
      var m, base := catalog[model], catalog[model].input.value;
      Some(ModelRate(base, OrElse(m.output, base), OrElse(m.cacheWrite, base), OrElse(m.cacheRead, base)))
  }

  /** The three exact parts of the cost. */
  function InputPart(r: ModelRate, u: UsageBreakdown): real {
    r.input * u.inputTokens as real
  }

  function OutputPart(r: ModelRate, u: UsageBreakdown): real {
    r.output * u.outputTokens as real
  }

  function CachePart(r: ModelRate, u: UsageBreakdown): real {
    r.cacheWrite * u.cacheWriteTokens as real + r.cacheRead * u.cacheReadTokens as real
  }

  function PriceAt(r: ModelRate, u: UsageBreakdown): CostBreakdown {
    var ic, oc, cc := InputPart(r, u), OutputPart(r, u), CachePart(r, u);
    CostBreakdown(RoundHalfEven(ic), RoundHalfEven(oc), RoundHalfEven(cc), RoundHalfEven(ic + oc + cc), true)
  }

  function Price(overrides: map<string, ModelRate>, catalog: map<string, CatalogModel>, model: string,
                 u: UsageBreakdown): CostBreakdown {
    match GetRate(overrides, catalog, model)
    case None => CostBreakdown(0, 0, 0, 0, false)
    case Some(rate) => PriceAt(rate, u)
  }

  ghost predicate Nearest(n: int, x: real) {
    -0.5 <= n as real - x <= 0.5
  }

  /** What is stored: each cost is the whole number nearest to the tokens of its kind at the rate of that
      kind, an override's rate before the catalog's. A model without a rate is recorded unpriced. */
  lemma CostsAreNearest(overrides: map<string, ModelRate>, catalog: map<string, CatalogModel>, model: string,
                        u: UsageBreakdown)
    ensures var c, rate := Price(overrides, catalog, model, u), GetRate(overrides, catalog, model);
      && (c.priced <==> model in overrides || (model in catalog && catalog[model].input.Some?))
      && (c.priced <==> rate.Some?)
      && (model in overrides ==> rate == Some(overrides[model]))
      && (!c.priced ==> c == CostBreakdown(0, 0, 0, 0, false))
      && (c.priced ==>
            var r := rate.value;
            var input, output := r.input * u.inputTokens as real, r.output * u.outputTokens as real;
            var cache := r.cacheWrite * u.cacheWriteTokens as real + r.cacheRead * u.cacheReadTokens as real;
            && Nearest(c.inputCost, input) && Nearest(c.outputCost, output) && Nearest(c.cacheCost, cache)
            && Nearest(c.totalCost, input + output + cache))
  {
    hide PriceAt;
    var rate := GetRate(overrides, catalog, model);
    if rate.Some? { PartsAreNearest(rate.value, u); }
  }

  lemma PartsAreNearest(r: ModelRate, u: UsageBreakdown)
    ensures var c := PriceAt(r, u);
      var input, output := r.input * u.inputTokens as real, r.output * u.outputTokens as real;
      var cache := r.cacheWrite * u.cacheWriteTokens as real + r.cacheRead * u.cacheReadTokens as real;
      && c.priced && Nearest(c.inputCost, input) && Nearest(c.outputCost, output) && Nearest(c.cacheCost, cache)
      && Nearest(c.totalCost, input + output + cache)
  {
    var ic, oc, cc := InputPart(r, u), OutputPart(r, u), CachePart(r, u);
    RoundNearest(ic);
    RoundNearest(oc);
    RoundNearest(cc);
    RoundNearest(ic + oc + cc);
    hide RoundHalfEven;
  }

  /** The stored total is the rounded exact cost, so it may differ from the sum of the
      stored parts, but never by more than 2 micro-dollars. */
  lemma TotalNearParts(overrides: map<string, ModelRate>, catalog: map<string, CatalogModel>, model: string,
                       u: UsageBreakdown)
    ensures var c := Price(overrides, catalog, model, u);
      -2 <= c.totalCost - (c.inputCost + c.outputCost + c.cacheCost) <= 2
  {
    var rate := GetRate(overrides, catalog, model);
    if rate.Some? {
      NearSum(InputPart(rate.value, u), OutputPart(rate.value, u), CachePart(rate.value, u));
    }
  }

  lemma NearSum(x: real, y: real, z: real)
    ensures -2 <= RoundHalfEven(x + y + z) - (RoundHalfEven(x) + RoundHalfEven(y) + RoundHalfEven(z)) <= 2
  {
    RoundNearest(x);
    RoundNearest(y);
    RoundNearest(z);
    RoundNearest(x + y + z);
  }

  /** Both ends of that bound are reached. */
  lemma BoundAttained()
    ensures var c := PriceAt(ModelRate(0.5, 0.5, 0.5, 0.0), UsageBreakdown(1, 1, 1, 0));
      c.totalCost - (c.inputCost + c.outputCost + c.cacheCost) == 2
    ensures var c := PriceAt(ModelRate(1.5, 1.5, 1.5, 0.0), UsageBreakdown(1, 1, 1, 0));
      c.totalCost - (c.inputCost + c.outputCost + c.cacheCost) == -2
  {
    assert RoundHalfEven(0.5) == 0 && RoundHalfEven(1.5) == 2 && RoundHalfEven(4.5) == 4;
  }

  /** With non-negative rates, more tokens of any kind never cost less. */
  lemma TotalMonotone(r: ModelRate, u: UsageBreakdown, v: UsageBreakdown)
    requires r.input >= 0.0 && r.output >= 0.0 && r.cacheWrite >= 0.0 && r.cacheRead >= 0.0
    requires u.inputTokens <= v.inputTokens && u.outputTokens <= v.outputTokens
    requires u.cacheWriteTokens <= v.cacheWriteTokens && u.cacheReadTokens <= v.cacheReadTokens
    ensures PriceAt(r, u).totalCost <= PriceAt(r, v).totalCost
  {
    PartsMonotone(r, u, v);
    hide InputPart, OutputPart, CachePart;
    RoundMonotone(InputPart(r, u) + OutputPart(r, u) + CachePart(r, u),
                  InputPart(r, v) + OutputPart(r, v) + CachePart(r, v));
  }

  lemma PartsMonotone(r: ModelRate, u: UsageBreakdown, v: UsageBreakdown)
    requires r.input >= 0.0 && r.output >= 0.0 && r.cacheWrite >= 0.0 && r.cacheRead >= 0.0
    requires u.inputTokens <= v.inputTokens && u.outputTokens <= v.outputTokens
    requires u.cacheWriteTokens <= v.cacheWriteTokens && u.cacheReadTokens <= v.cacheReadTokens
    ensures InputPart(r, u) <= InputPart(r, v)
    ensures OutputPart(r, u) <= OutputPart(r, v)
    ensures CachePart(r, u) <= CachePart(r, v)
  {
    Scale(r.input, u.inputTokens as real, v.inputTokens as real);
    Scale(r.output, u.outputTokens as real, v.outputTokens as real);
    Scale(r.cacheWrite, u.cacheWriteTokens as real, v.cacheWriteTokens as real);
    Scale(r.cacheRead, u.cacheReadTokens as real, v.cacheReadTokens as real);
  }

  lemma Scale(r: real, x: real, y: real)
    requires r >= 0.0 && x <= y
    ensures r * x <= r * y
  {
    assert r * (y - x) >= 0.0;
  }

  /** A published price is charged as published, unless it is zero while input is not free. */
  ghost predicate ChargedFor(published: Option<real>, input: real, charged: real) {
    match published
    case None => charged == input
    case Some(p) => (charged == p <==> p != 0.0 || input == 0.0) && (charged == p || charged == input)
  }

  /** Exactly when a catalog's optional prices are charged: a missing one at the input price, a
      published one as it is unless it is zero and the input price is not. */
  lemma CatalogPricesCharged(overrides: map<string, ModelRate>, catalog: map<string, CatalogModel>, model: string)
    requires model !in overrides && model in catalog && catalog[model].input.Some?
    ensures var m, rate := catalog[model], GetRate(overrides, catalog, model);
            && rate.Some? && rate.value.input == m.input.value
            && ChargedFor(m.output, m.input.value, rate.value.output)
            && ChargedFor(m.cacheWrite, m.input.value, rate.value.cacheWrite)
            && ChargedFor(m.cacheRead, m.input.value, rate.value.cacheRead)
  {
  }

  function ZeroAsMissing(price: Option<real>): Option<real> {
    if price == Some(0.0) then None else price
  }

  /** Publishing an optional price of zero costs what publishing none does, in every part. */
  lemma ZeroPricesAreMissing(overrides: map<string, ModelRate>, catalog: map<string, CatalogModel>, model: string,
                             u: UsageBreakdown)
    requires model in catalog
    ensures var m := catalog[model];
            var silent := m.(output := ZeroAsMissing(m.output), cacheWrite := ZeroAsMissing(m.cacheWrite),
                             cacheRead := ZeroAsMissing(m.cacheRead));
            Price(overrides, catalog, model, u) == Price(overrides, catalog[model := silent], model, u)
  {
    hide PriceAt, RoundHalfEven;
    var m := catalog[model];
    var silent := m.(output := ZeroAsMissing(m.output), cacheWrite := ZeroAsMissing(m.cacheWrite),
                     cacheRead := ZeroAsMissing(m.cacheRead));
    assert GetRate(overrides, catalog, model) == GetRate(overrides, catalog[model := silent], model);
  }

  /** So free output is charged at the input rate, in the stored cost too. */
  lemma FreeOutputIsCharged(catalog: map<string, CatalogModel>, model: string, u: UsageBreakdown)
    requires model in catalog && catalog[model].input.Some? && catalog[model].output == Some(0.0)
    ensures var input := catalog[model].input.value;
            Price(map[], catalog, model, u).outputCost == PriceAt(ModelRate(input, input, input, input), u).outputCost
  {
    var rate, input := GetRate(map[], catalog, model).value, catalog[model].input.value;
    OutputCostByRate(rate, ModelRate(input, input, input, input), u);
  }

  lemma OutputCostByRate(r: ModelRate, r': ModelRate, u: UsageBreakdown)
    requires r.output == r'.output
    ensures PriceAt(r, u).outputCost == PriceAt(r', u).outputCost
  {
    hide RoundHalfEven;
    assert OutputPart(r, u) == OutputPart(r', u);
    hide OutputPart;
  }
}
