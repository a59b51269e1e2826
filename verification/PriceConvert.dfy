/**
 Translating the price lists of OpenRouter and models.dev into local ratios
 (controller/ratio_sync.go). Prices and ratios are reals.
 */
module PriceConvert {

  datatype Option<T> = None | Some(value: T)
  datatype Result<T> = Ok(value: T) | Err(error: string)

  datatype Id = Id(text: string)
  datatype Provider = Provider(text: string)

  const USD: real := 500.0
  const EPSILON: real := 0.000000001
  const MILLION: real := 1000000.0

  // ---------------------------------------------------------------------------
  // Rounding to six decimals
  // ---------------------------------------------------------------------------

  /** `math.Round`: to the nearest integer, halves away from zero. */
  function RoundHalf(y: real): int {
    if y >= 0.0 then (y + 0.5).Floor else -(-y + 0.5).Floor
  }

  function RoundRatio(x: real): real {
    RoundHalf(x * MILLION) as real / MILLION
  }

  function Abs(x: real): real {
    if x < 0.0 then -x else x
  }

  lemma RoundHalfNearest(y: real, k: int)
    ensures Abs(RoundHalf(y) as real - y) <= 0.5
    ensures Abs(RoundHalf(y) as real - y) <= Abs(k as real - y)
    ensures y >= 0.0 ==> RoundHalf(y) >= 0
  {
    var r := RoundHalf(y);
    if k < r {
      assert k as real <= (r - 1) as real;
    } else if k > r {
      assert k as real >= (r + 1) as real;
    }
  }

  lemma Scale(a: real, x: real)
    ensures Abs(a / MILLION - x) == Abs(a - x * MILLION) / MILLION
  {
  }

  /** Halves are rounded away from zero, and the sign does not matter. */
  lemma RoundHalfTies(k: nat, y: real)
    ensures RoundHalf(k as real + 0.5) == k + 1
    ensures RoundHalf(-y) == -RoundHalf(y)
  {
  }

  /** The rounded ratio is the nearest multiple of 0.000001, so within half of that of the exact one. */
  lemma RoundRatioNearest(x: real, k: int)
    ensures Abs(RoundRatio(x) - x) <= 0.0000005
    ensures Abs(RoundRatio(x) - x) <= Abs(k as real / MILLION - x)
    ensures x >= 0.0 ==> RoundRatio(x) >= 0.0
  {
    RoundHalfNearest(x * MILLION, k);
    Scale(RoundHalf(x * MILLION) as real, x);
    Scale(k as real, x);
  }

  lemma RoundHalfMonotone(a: real, b: real)
    requires a <= b
    ensures RoundHalf(a) <= RoundHalf(b)
  {
  }

  /** Rounding keeps the order of prices. */
  lemma RoundRatioMonotone(x: real, y: real)
    requires x <= y
    ensures RoundRatio(x) <= RoundRatio(y)
  {
    RoundHalfMonotone(x * MILLION, y * MILLION);
  }

  // ---------------------------------------------------------------------------
  // The converted tables
  // ---------------------------------------------------------------------------

  datatype Prices = Prices(model: map<Id, real>, completion: map<Id, real>, cache: map<Id, real>)

  /** The ratios of one model; a model that is left out has none. */
  datatype Ratios = Ratios(model: Option<real>, completion: Option<real>, cache: Option<real>)

  const NONE := Ratios(None, None, None)
  const FREE := Ratios(Some(0.0), None, None)

  function Lookup(m: map<Id, real>, id: Id): Option<real> {
    if id in m then Some(m[id]) else None
  }

  function At(p: Prices, id: Id): Ratios {
    Ratios(Lookup(p.model, id), Lookup(p.completion, id), Lookup(p.cache, id))
  }

  function Put(m: map<Id, real>, id: Id, v: Option<real>): map<Id, real> {
    if v.Some? then m[id := v.value] else m
  }

  /** Ratios that are present are written; absent ones leave what is there. */
  function Write(p: Prices, id: Id, r: Ratios): Prices {
    Prices(Put(p.model, id, r.model), Put(p.completion, id, r.completion), Put(p.cache, id, r.cache))
  }

  // ---------------------------------------------------------------------------
  // OpenRouter: a list with prices per token
  // ---------------------------------------------------------------------------

  /** A price that is missing or does not parse is `None`. */
  datatype Entry = Entry(id: Id, prompt: Option<real>, completion: Option<real>, cacheRead: Option<real>)

  function OrZero(v: Option<real>): real {
    if v.Some? then v.value else 0.0
  }

  function OpenRouterRatios(e: Entry): Ratios {
    if e.prompt.None? && e.completion.None? then NONE
    else
      var prompt, completion := OrZero(e.prompt), OrZero(e.completion);
      if prompt < 0.0 || completion < 0.0 then NONE
      else if prompt == 0.0 && completion == 0.0 then FREE
      else if prompt <= 0.0 then NONE
      else Ratios(Some(RoundRatio(prompt * 1000.0 * USD)), Some(RoundRatio(completion / prompt)),
                  if e.cacheRead.Some? && e.cacheRead.value >= 0.0 then Some(RoundRatio(e.cacheRead.value / prompt))
                      else None)
  }

  function OpenRouterPrices(entries: seq<Entry>): Prices {
    if entries == [] then Prices(map[], map[], map[])
    else
      var n := |entries| - 1;
      Write(OpenRouterPrices(entries[..n]), entries[n].id, OpenRouterRatios(entries[n]))
  }

  method ConvertOpenRouter(entries: seq<Entry>) returns (r: Prices)
    ensures r == OpenRouterPrices(entries)
  {
    var model, completion, cache := map[], map[], map[];
    var i := 0;
    while i < |entries|
      invariant 0 <= i <= |entries| && Prices(model, completion, cache) == OpenRouterPrices(entries[..i])
    {
      var e := entries[i];
      assert entries[..i + 1][..i] == entries[..i];
      i := i + 1;
      if e.prompt.None? && e.completion.None? {
        continue;
      }
      var promptPrice, completionPrice := OrZero(e.prompt), OrZero(e.completion);
      if promptPrice < 0.0 || completionPrice < 0.0 {
        continue;
      }
      if promptPrice == 0.0 && completionPrice == 0.0 {
        model := model[e.id := 0.0];
        continue;
      }
      if promptPrice <= 0.0 {
        continue;
      }
      model := model[e.id := RoundRatio(promptPrice * 1000.0 * USD)];
      completion := completion[e.id := RoundRatio(completionPrice / promptPrice)];
      if e.cacheRead.Some? && e.cacheRead.value >= 0.0 {
        cache := cache[e.id := RoundRatio(e.cacheRead.value / promptPrice)];
      }
    }
    assert entries[..i] == entries;
    r := Prices(model, completion, cache);
  }

  ghost predicate DistinctIds(entries: seq<Entry>) {
    forall i, j :: 0 <= i < j < |entries| ==> entries[i].id != entries[j].id
  }

  /** With distinct ids every entry speaks for its own model, and no other model is priced. */
  lemma {:induction false} OpenRouterAt(entries: seq<Entry>, id: Id)
    requires DistinctIds(entries)
    ensures forall i :: 0 <= i < |entries| && entries[i].id == id ==>
        At(OpenRouterPrices(entries), id) == OpenRouterRatios(entries[i])
    ensures (forall i :: 0 <= i < |entries| ==> entries[i].id != id) ==> At(OpenRouterPrices(entries), id) == NONE
  {
    hide OpenRouterRatios;
    if entries != [] {
      var n := |entries| - 1;
      OpenRouterAt(entries[..n], id);
      if entries[n].id == id {
        assert forall i :: 0 <= i < n ==> entries[..n][i].id != id;
      } else {
        assert forall i :: 0 <= i < n ==> entries[..n][i] == entries[i];
      }
    }
  }

  // ---------------------------------------------------------------------------
  // models.dev: providers with prices per million tokens
  // ---------------------------------------------------------------------------

  datatype Cost = Cost(input: Option<real>, output: Option<real>, cacheRead: Option<real>)
  datatype Candidate = Candidate(provider: Provider, input: real, output: Option<real>, cacheRead: Option<real>)

  type Catalog = map<Provider, map<Id, Cost>>

  /** A candidate needs an input price, no negative price, and no output price on a free input. */
  function BuildCandidate(provider: Provider, cost: Cost): (c: Option<Candidate>)
    ensures c.Some? ==> c.value.provider == provider && c.value.input >= 0.0
  {
    if cost.input.None? || cost.input.value < 0.0 then None
    else if cost.output.Some? && cost.output.value < 0.0 then None
    else if cost.input.value == 0.0 && cost.output.Some? && cost.output.value > 0.0 then None
    else Some(Candidate(provider, cost.input.value, cost.output,
                        if cost.cacheRead.Some? && cost.cacheRead.value >= 0.0 then cost.cacheRead else None))
  }

  function CandidateOf(catalog: Catalog, provider: Provider, id: Id): (c: Option<Candidate>)
    ensures c.Some? ==> c.value.provider == provider && c.value.input >= 0.0
  {
    if provider in catalog && id in catalog[provider] then BuildCandidate(provider, catalog[provider][id]) else None
  }

  predicate NearlyEqual(a: real, b: real)
    ensures NearlyEqual(a, b) <==> -0.000000001 < a - b < 0.000000001
  {
    if a > b then a - b < EPSILON else b - a < EPSILON
  }

  /** Byte order of strings. */
  predicate Less(a: string, b: string) {
    b != "" && (a == "" || a[0] < b[0] || (a[0] == b[0] && Less(a[1..], b[1..])))
  }

  predicate Before(a: Provider, b: Provider) {
    Less(a.text, b.text)
  }

  predicate ShouldReplace(current: Candidate, next: Candidate) {
    var currentNonZero, nextNonZero := current.input > 0.0, next.input > 0.0;
    if currentNonZero != nextNonZero then nextNonZero
    else if nextNonZero && !NearlyEqual(next.input, current.input) then next.input < current.input
    else Before(next.provider, current.provider)
  }

  function Choose(current: Option<Candidate>, next: Option<Candidate>): Option<Candidate> {
    if next.None? then current
    else if current.None? || ShouldReplace(current.value, next.value) then next
    else current
  }

  /** The candidate selected after the given providers. */
  function Best(catalog: Catalog, providers: seq<Provider>, id: Id): Option<Candidate> {
    if providers == [] then None
    else
      var n := |providers| - 1;
      Choose(Best(catalog, providers[..n], id), CandidateOf(catalog, providers[n], id))
  }

  function CandidateRatios(c: Candidate): Ratios {
    if c.input == 0.0 then FREE
    else Ratios(Some(RoundRatio(c.input * USD / 1000.0)),
                if c.output.Some? then Some(RoundRatio(c.output.value / c.input)) else None,
                if c.cacheRead.Some? then Some(RoundRatio(c.cacheRead.value / c.input)) else None)
  }

  function BestRatios(c: Option<Candidate>): Ratios {
    if c.Some? then CandidateRatios(c.value) else NONE
  }

  ghost predicate Sorted(providers: seq<Provider>) {
    forall i, j :: 0 <= i < j < |providers| ==> Before(providers[i], providers[j])
  }

  // ---------------------------------------------------------------------------
  // Order of names
  // ---------------------------------------------------------------------------

  lemma {:induction false} LessIrreflexive(a: string)
    ensures !Less(a, a)
  {
    if a != "" {
      LessIrreflexive(a[1..]);
    }
  }

  lemma {:induction false} LessTotal(a: string, b: string)
    ensures Less(a, b) || a == b || Less(b, a)
  {
    if a != "" && b != "" && a[0] == b[0] {
      LessTotal(a[1..], b[1..]);
      assert a == [a[0]] + a[1..] && b == [b[0]] + b[1..];
    }
  }

  lemma {:induction false} LessTransitive(a: string, b: string, c: string)
    requires Less(a, b) && Less(b, c)
    ensures Less(a, c)
  {
    if a != "" && a[0] == b[0] == c[0] {
      LessTransitive(a[1..], b[1..], c[1..]);
    }
  }

  /** The keys in byte order, whatever order they come in. */
  method SortProviders(keys: set<Provider>) returns (sorted: seq<Provider>)
    ensures Sorted(sorted) && forall p :: p in sorted <==> p in keys
  {
    sorted := [];
    var pending := keys;
    while pending != {}
      invariant pending <= keys && Sorted(sorted)
      invariant forall p :: p in sorted <==> p in keys - pending
      invariant forall p, q :: p in sorted && q in pending ==> Before(p, q)
      decreases pending
    {
      hide Before;
      var least := Smallest(pending);
      sorted := sorted + [least];
      pending := pending - {least};
    }
  }

  method Smallest(keys: set<Provider>) returns (least: Provider)
    requires keys != {}
    ensures least in keys && forall p :: p in keys && p != least ==> Before(least, p)
  {
    least :| least in keys;
    var pending := keys - {least};
    while pending != {}
      invariant pending <= keys && least in keys && least !in pending
      invariant forall p :: p in keys - pending && p != least ==> Before(least, p)
      decreases pending
    {
      var p :| p in pending;
      LessTotal(p.text, least.text);
      if Before(p, least) {
        forall q | q in keys - pending && q != least
          ensures Before(p, q)
        {
          LessTransitive(p.text, least.text, q.text);
        }
        least := p;
      }
      pending := pending - {p};
    }
  }

  /** There is only one sorted list of a set, so the map order of the response does not matter. */
  lemma {:induction false} SortedUnique(ps: seq<Provider>, qs: seq<Provider>)
    requires Sorted(ps) && Sorted(qs) && forall p :: p in ps <==> p in qs
    ensures ps == qs
  {
    if ps == [] {
      NoMembers(qs);
    } else {
      assert ps[0] in qs;
      var n, m := |ps| - 1, |qs| - 1;
      LastIsLargest(ps, qs);
      forall p
        ensures p in ps[..n] <==> p in qs[..m]
      {
        WithoutLast(ps, p);
        WithoutLast(qs, p);
      }
      SortedUnique(ps[..n], qs[..m]);
      assert ps == ps[..n] + [ps[n]] && qs == qs[..m] + [qs[m]];
    }
  }

  lemma NoMembers(qs: seq<Provider>)
    ensures qs == [] <==> forall q :: q !in qs
  {
    if qs != [] {
      assert qs[0] in qs;
    }
  }

  lemma LastIsLargest(ps: seq<Provider>, qs: seq<Provider>)
    requires Sorted(ps) && Sorted(qs) && ps != [] && qs != [] && forall p :: p in ps <==> p in qs
    ensures ps[|ps| - 1] == qs[|qs| - 1]
  {
    var p, q := ps[|ps| - 1], qs[|qs| - 1];
    assert p in qs && q in ps;
    if p != q {
      assert Before(p, q) && Before(q, p);
      LessTransitive(p.text, q.text, p.text);
      LessIrreflexive(p.text);
    }
  }

  lemma WithoutLast(ps: seq<Provider>, p: Provider)
    requires Sorted(ps) && ps != []
    ensures p in ps[..|ps| - 1] <==> p in ps && p != ps[|ps| - 1]
  {
    var n := |ps| - 1;
    LessIrreflexive(p.text);
    assert ps == ps[..n] + [ps[n]];
  }

  // ---------------------------------------------------------------------------
  // Selecting and converting
  // ---------------------------------------------------------------------------

  ghost predicate SortedKeys(providers: seq<Provider>, catalog: Catalog) {
    Sorted(providers) && forall p :: p in providers <==> p in catalog
  }

  ghost predicate IsSelected(selected: map<Id, Candidate>, catalog: Catalog, providers: seq<Provider>) {
    forall id :: IsSelectedAt(selected, catalog, providers, id)
  }

  ghost predicate IsSelectedAt(selected: map<Id, Candidate>, catalog: Catalog, providers: seq<Provider>, id: Id) {
    Best(catalog, providers, id) == if id in selected then Some(selected[id]) else None
  }

  /** The models of one provider, in any order. */
  method SelectProvider(catalog: Catalog, provider: Provider, selected: map<Id, Candidate>)
      returns (r: map<Id, Candidate>)
    requires provider in catalog
    ensures forall id :: var before := if id in selected then Some(selected[id]) else None;
                         (if id in r then Some(r[id]) else None) == Choose(before, CandidateOf(catalog, provider, id))
  {
    r := selected;
    var models := catalog[provider];
    var pending := models.Keys;
    while pending != {}
      invariant pending <= models.Keys
      invariant forall id :: id !in models || id in pending ==>
                  (id in r <==> id in selected) && (id in r ==> r[id] == selected[id])
      invariant forall id :: id in models.Keys - pending ==>
                  var before := if id in selected then Some(selected[id]) else None;
                  (if id in r then Some(r[id]) else None) == Choose(before, CandidateOf(catalog, provider, id))
      decreases pending
    {
      hide ShouldReplace, BuildCandidate;
      var id :| id in pending;
      var candidate := BuildCandidate(provider, models[id]);
      if candidate.Some? && (id !in r || ShouldReplace(r[id], candidate.value)) {
        r := r[id := candidate.value];
      }
      pending := pending - {id};
    }
  }

  method Select(catalog: Catalog, providers: seq<Provider>) returns (selected: map<Id, Candidate>)
    requires SortedKeys(providers, catalog)
    ensures IsSelected(selected, catalog, providers)
  {
    selected := map[];
    var i := 0;
    assert providers[..0] == [];
    while i < |providers|
      invariant 0 <= i <= |providers| && IsSelected(selected, catalog, providers[..i])
    {
      var next := SelectProvider(catalog, providers[i], selected);
      var done := providers[..i + 1];
      forall id
        ensures IsSelectedAt(next, catalog, done, id)
      {
        assert done[..i] == providers[..i];
        assert IsSelectedAt(selected, catalog, providers[..i], id);
      }
      hide *;
      selected := next;
      i := i + 1;
    }
    assert providers[..i] == providers;
  }

  method Translate(selected: map<Id, Candidate>) returns (r: Prices)
    ensures forall id :: At(r, id) == if id in selected then CandidateRatios(selected[id]) else NONE
  {
    var model, completion, cache := map[], map[], map[];
    var pending := selected.Keys;
    while pending != {}
      invariant pending <= selected.Keys
      invariant forall id :: At(Prices(model, completion, cache), id)
                             == if id in selected.Keys - pending then CandidateRatios(selected[id]) else NONE
      decreases pending
    {
      var id :| id in pending;
      var candidate := selected[id];
      ghost var before := Prices(model, completion, cache);
      assert At(before, id) == NONE;
      hide RoundRatio;
      if candidate.input == 0.0 {
        model := model[id := 0.0];
      } else {
        model := model[id := RoundRatio(candidate.input * USD / 1000.0)];
        if candidate.output.Some? {
          completion := completion[id := RoundRatio(candidate.output.value / candidate.input)];
        }
        if candidate.cacheRead.Some? {
          cache := cache[id := RoundRatio(candidate.cacheRead.value / candidate.input)];
        }
      }
      assert At(Prices(model, completion, cache), id) == CandidateRatios(candidate);
      assert forall other :: other != id ==> At(Prices(model, completion, cache), other) == At(before, other);
      pending := pending - {id};
    }
    r := Prices(model, completion, cache);
  }

  ghost predicate Converted(r: Result<Prices>, catalog: Catalog, providers: seq<Provider>) {
    && (r.Ok? <==> exists id :: Best(catalog, providers, id).Some?)
    && (r.Ok? ==> forall id :: At(r.value, id) == BestRatios(Best(catalog, providers, id)))
  }

  /** The converted prices are those of the best candidates; without any there is an error. */
  method ConvertModelsDev(catalog: Catalog) returns (r: Result<Prices>)
    ensures forall providers :: SortedKeys(providers, catalog) ==> Converted(r, catalog, providers)
  {
    var providers := SortProviders(catalog.Keys);
    var selected := Select(catalog, providers);
    forall other | SortedKeys(other, catalog)
      ensures other == providers
    {
      SortedUnique(other, providers);
    }
    forall id
      ensures Best(catalog, providers, id) == if id in selected then Some(selected[id]) else None
    {
      assert IsSelectedAt(selected, catalog, providers, id);
    }
    hide Best, SortedKeys, IsSelected, CandidateRatios, At;
    if |selected| == 0 {
      assert selected == map[];
      return Err("no valid models.dev pricing entries found");
    }
    SomeId(selected);
    var prices := Translate(selected);
    r := Ok(prices);
  }

  lemma SomeId(selected: map<Id, Candidate>)
    ensures |selected| > 0 ==> exists id :: id in selected
  {
  }

  // ---------------------------------------------------------------------------
  // What the ratios mean
  // ---------------------------------------------------------------------------

  /** `r` is `x` to six decimals. */
  ghost predicate Rounds(r: Option<real>, x: real) {
    && r.Some? && Abs(r.value - x) <= 0.0000005
    && (r.value * 1000000.0).Floor as real == r.value * 1000000.0
  }

  lemma RoundRatioRounds(x: real)
    ensures Rounds(Some(RoundRatio(x)), x)
  {
    RoundRatioNearest(x, 0);
    assert RoundRatio(x) * 1000000.0 == RoundHalf(x * MILLION) as real;
  }

  /** Free models get the ratio 0 and nothing else. */
  ghost predicate IsFree(r: Ratios) {
    r.model == Some(0.0) && r.completion.None? && r.cache.None?
  }

  ghost predicate IsNone(r: Ratios) {
    r.model.None? && r.completion.None? && r.cache.None?
  }

  /**
   A price of one dollar per token is a ratio of 500000: one unit is 0.002 dollars for a
   thousand tokens. The other prices are given relative to the prompt price. An entry is left
   out when no price parses, a price is negative, or only the prompt is free; a price that
   does not parse counts as free.
   */
  lemma OpenRouterMeans(e: Entry)
    ensures var r := OpenRouterRatios(e);
            var prompt := if e.prompt.Some? then e.prompt.value else 0.0;
            var completion := if e.completion.Some? then e.completion.value else 0.0;
            if (e.prompt.None? && e.completion.None?) || prompt < 0.0 || completion < 0.0 then IsNone(r)
            else if prompt == 0.0 then (if completion == 0.0 then IsFree(r) else IsNone(r))
            else
              && Rounds(r.model, prompt * 500000.0) && Rounds(r.completion, completion / prompt)
              && (if e.cacheRead.Some? && e.cacheRead.value >= 0.0 then Rounds(r.cache, e.cacheRead.value / prompt)
                  else r.cache.None?)
  {
    if e.prompt.Some? && e.prompt.value > 0.0 {
      var p := e.prompt.value;
      RoundRatioRounds(p * 500000.0);
      assert p * 1000.0 * USD == p * 500000.0;
      RoundRatioRounds((if e.completion.Some? then e.completion.value else 0.0) / p);
      if e.cacheRead.Some? {
        RoundRatioRounds(e.cacheRead.value / p);
      }
    }
    hide RoundRatio, Rounds;
  }

  /**
   The ratio of a price per million tokens is half of it, and the other prices are relative to
   it. A cost is left out when it has no input price, a negative input or output price, or a
   free input with an output that is not; a negative cache price alone is ignored.
   */
  lemma ModelsDevMeans(provider: Provider, cost: Cost)
    ensures var r := BestRatios(BuildCandidate(provider, cost));
            if cost.input.None? || cost.input.value < 0.0 || (cost.output.Some? && cost.output.value < 0.0)
            then IsNone(r)
            else if cost.input.value == 0.0 then
              (if cost.output.Some? && cost.output.value > 0.0 then IsNone(r) else IsFree(r))
            else
              && Rounds(r.model, cost.input.value / 2.0)
              && (if cost.output.Some? then Rounds(r.completion, cost.output.value / cost.input.value)
                  else r.completion.None?)
              && (if cost.cacheRead.Some? && cost.cacheRead.value >= 0.0
                  then Rounds(r.cache, cost.cacheRead.value / cost.input.value) else r.cache.None?)
  {
    if cost.input.Some? && cost.input.value > 0.0 {
      var p := cost.input.value;
      RoundRatioRounds(p / 2.0);
      assert p * USD / 1000.0 == p / 2.0;
      if cost.output.Some? {
        RoundRatioRounds(cost.output.value / p);
      }
      if cost.cacheRead.Some? {
        RoundRatioRounds(cost.cacheRead.value / p);
      }
    }
    hide RoundRatio, Rounds;
  }

  // ---------------------------------------------------------------------------
  // Near-cheapest although the comparison is not transitive
  // ---------------------------------------------------------------------------

  /** `best` comes from one of the providers, and is as good as the candidate `c`. */
  ghost predicate AsGood(best: Candidate, c: Candidate) {
    c.input > 0.0 ==> best.input > 0.0 && best.input < c.input + 0.000000001
  }

  ghost predicate FromOne(catalog: Catalog, providers: seq<Provider>, id: Id, best: Option<Candidate>) {
    best.Some? ==> best.value.provider in providers && CandidateOf(catalog, best.value.provider, id) == best
  }

  ghost predicate BeatsAll(catalog: Catalog, providers: seq<Provider>, id: Id, best: Option<Candidate>) {
    forall i :: 0 <= i < |providers| && CandidateOf(catalog, providers[i], id).Some? ==>
      best.Some? && AsGood(best.value, CandidateOf(catalog, providers[i], id).value)
  }

  lemma ChooseKeeps(current: Candidate, next: Candidate, c: Candidate)
    requires AsGood(current, c) && !Before(next.provider, current.provider)
    ensures var best := Choose(Some(current), Some(next)).value; AsGood(best, c) && AsGood(best, next)
  {
  }

  /**
   For every catalog the selected candidate is one of the valid ones, non-zero if any is,
   and costs less than every non-zero candidate plus the tolerance.
   */
  lemma {:induction false} NearCheapest(catalog: Catalog, providers: seq<Provider>, id: Id)
    requires Sorted(providers)
    ensures var best := Best(catalog, providers, id);
            FromOne(catalog, providers, id, best) && BeatsAll(catalog, providers, id, best)
  {
    if providers != [] {
      var n := |providers| - 1;
      var front := providers[..n];
      NearCheapest(catalog, front, id);
      var current, next := Best(catalog, front, id), CandidateOf(catalog, providers[n], id);
      hide Best, CandidateOf;
      if current.Some? {
        var k :| 0 <= k < n && front[k] == current.value.provider;
        NotBefore(providers, k, n);
      }
      forall i | 0 <= i < |providers| && CandidateOf(catalog, providers[i], id).Some?
        ensures Choose(current, next).Some?
            && AsGood(Choose(current, next).value, CandidateOf(catalog, providers[i], id).value)
      {
        if i < n {
          assert front[i] == providers[i];
          if next.Some? {
            ChooseKeeps(current.value, next.value, CandidateOf(catalog, providers[i], id).value);
          }
        } else if current.Some? {
          ChooseKeeps(current.value, next.value, current.value);
        }
      }
    }
  }

  lemma NotBefore(providers: seq<Provider>, i: nat, j: nat)
    requires Sorted(providers) && i < j < |providers|
    ensures !Before(providers[j], providers[i])
  {
    var a, b := providers[i].text, providers[j].text;
    assert Less(a, b);
    if Less(b, a) {
      LessTransitive(a, b, a);
      LessIrreflexive(a);
    }
  }

  /** Non-zero prices of the model are equal or at least the tolerance apart. */
  ghost predicate Spread(catalog: Catalog, providers: seq<Provider>, id: Id) {
    forall i, j :: 0 <= i < |providers| && 0 <= j < |providers| ==>
      Apart(CandidateOf(catalog, providers[i], id), CandidateOf(catalog, providers[j], id))
  }

  predicate Apart(a: Option<Candidate>, b: Option<Candidate>) {
    a.Some? && b.Some? && a.value.input != b.value.input ==>
      Abs(a.value.input - b.value.input) >= 0.000000001
  }

  /** `best` is cheaper than `c`, or equally cheap with a provider that does not come later. */
  ghost predicate CheapestFirst(best: Candidate, c: Candidate) {
    c.input > 0.0 ==> 0.0 < best.input <= c.input && (best.input == c.input ==> !Before(c.provider, best.provider))
  }

  /** One comparison of clearly separated prices, the next provider not coming earlier. */
  lemma ChooseCheapest(current: Candidate, next: Candidate)
    requires Apart(Some(current), Some(next)) && !Before(next.provider, current.provider)
    ensures var best := Choose(Some(current), Some(next)).value;
            && CheapestFirst(best, next)
            && (best == current || (best == next && next.input > 0.0
                && (current.input > 0.0 ==> next.input < current.input)))
  {
    LessIrreflexive(next.provider.text);
  }

  /** The winner of a comparison is as good as everything the loser was as good as. */
  lemma CheapestKept(current: Candidate, next: Candidate, best: Candidate, c: Candidate)
    requires CheapestFirst(current, c)
    requires best == current || (best == next && next.input > 0.0
        && (current.input > 0.0 ==> next.input < current.input))
    ensures CheapestFirst(best, c)
  {
  }

  /** Prices that are equal or clearly apart give exactly the cheapest, from the smallest provider on ties. */
  lemma {:induction false} ExactlyCheapest(catalog: Catalog, providers: seq<Provider>, id: Id, i: nat)
    requires Sorted(providers) && Spread(catalog, providers, id) && i < |providers|
    requires CandidateOf(catalog, providers[i], id).Some?
    ensures var best := Best(catalog, providers, id);
            best.Some? && CheapestFirst(best.value, CandidateOf(catalog, providers[i], id).value)
  {
    var n := |providers| - 1;
    var front := providers[..n];
    var current, next := Best(catalog, front, id), CandidateOf(catalog, providers[n], id);
    var best, c := Choose(current, next), CandidateOf(catalog, providers[i], id);
    assert Best(catalog, providers, id) == best;
    hide Best, CandidateOf, Before;
    if current.Some? && next.Some? {
      LastComparison(catalog, providers, id);
      ChooseCheapest(current.value, next.value);
    }
    hide ShouldReplace;
    if i < n {
      SpreadFront(catalog, providers, id);
      assert front[i] == providers[i];
      ExactlyCheapest(catalog, front, id, i);
      if next.Some? {
        CheapestKept(current.value, next.value, best.value, c.value);
      }
    } else if current.None? {
      CheapestSelf(next.value);
    }
  }

  lemma CheapestSelf(c: Candidate)
    ensures CheapestFirst(c, c)
  {
    LessIrreflexive(c.provider.text);
  }

  lemma SpreadFront(catalog: Catalog, providers: seq<Provider>, id: Id)
    requires Sorted(providers) && Spread(catalog, providers, id) && providers != []
    ensures Sorted(providers[..|providers| - 1]) && Spread(catalog, providers[..|providers| - 1], id)
  {
    hide CandidateOf, Apart, Before;
    var front := providers[..|providers| - 1];
    assert forall j :: 0 <= j < |front| ==> front[j] == providers[j];
  }

  /** The candidate selected so far is of an earlier provider and clearly apart from the last one. */
  lemma LastComparison(catalog: Catalog, providers: seq<Provider>, id: Id)
    requires Sorted(providers) && Spread(catalog, providers, id) && providers != []
    ensures var n := |providers| - 1;
            var current, next := Best(catalog, providers[..n], id), CandidateOf(catalog, providers[n], id);
            current.Some? && next.Some? ==> Apart(current, next) && !Before(next.value.provider, current.value.provider)
  {
    var n := |providers| - 1;
    var front := providers[..n];
    var current, next := Best(catalog, front, id), CandidateOf(catalog, providers[n], id);
    SpreadFront(catalog, providers, id);
    NearCheapest(catalog, front, id);
    hide Best, CandidateOf, BeatsAll, Before;
    if current.Some? && next.Some? {
      var k :| 0 <= k < n && front[k] == current.value.provider;
      assert providers[k] == front[k];
      NotBefore(providers, k, n);
      assert Apart(CandidateOf(catalog, providers[k], id), CandidateOf(catalog, providers[n], id));
    }
  }

  /**
   Of two providers in order with prices above zero, the first one is selected unless the
   second is clearly cheaper. So the dearer price wins exactly when it is the first one's
   and the difference is below the tolerance.
   */
  lemma DearerWinsIff(catalog: Catalog, a: Provider, b: Provider, id: Id)
    requires Before(a, b) && CandidateOf(catalog, a, id).Some? && CandidateOf(catalog, b, id).Some?
    requires CandidateOf(catalog, a, id).value.input > 0.0 && CandidateOf(catalog, b, id).value.input > 0.0
    ensures var ca, cb, best := CandidateOf(catalog, a, id), CandidateOf(catalog, b, id), Best(catalog, [a, b], id);
            var pa, pb := ca.value.input, cb.value.input;
            && best == (if pa - pb >= 0.000000001 then cb else ca)
            && (best.value.input > pa || best.value.input > pb <==> 0.0 < pa - pb < 0.000000001)
  {
    assert Sorted([a, b]);
    NotBefore([a, b], 0, 1);
    hide CandidateOf, Before;
    assert [a, b][..1] == [a] && [a][..0] == [];
    assert Best(catalog, [a][..0], id) == None;
    assert Best(catalog, [a], id) == CandidateOf(catalog, a, id);
  }

  // ---------------------------------------------------------------------------
  // The two converters agree
  // ---------------------------------------------------------------------------

  function Scaled(v: Option<real>): Option<real> {
    if v.Some? then Some(v.value * MILLION) else None
  }

  /** The prices of an entry, per million tokens. */
  function PerMillion(e: Entry): Cost {
    Cost(Scaled(e.prompt), Scaled(e.completion), Scaled(e.cacheRead))
  }

  /** The two lists say the same about a model unless a price is missing in one of two ways. */
  predicate Comparable(e: Entry) {
    && !(e.prompt.None? && e.completion == Some(0.0))
    && !(e.prompt.Some? && e.prompt.value > 0.0 && e.completion.None?)
  }

  lemma SameQuotient(a: real, b: real)
    requires b > 0.0
    ensures (a * MILLION) / (b * MILLION) == a / b
  {
    var q := a / b;
    assert q * b == a;
    assert q * (b * MILLION) == a * MILLION;
  }

  /** For the same prices the converters give the same ratios exactly when the entry is comparable. */
  lemma ConvertersAgreeIff(e: Entry, provider: Provider)
    ensures OpenRouterRatios(e) == BestRatios(BuildCandidate(provider, PerMillion(e))) <==> Comparable(e)
  {
    if e.prompt.Some? && e.prompt.value > 0.0 {
      var p := e.prompt.value;
      assert p * MILLION > 0.0;
      assert p * MILLION * USD / 1000.0 == p * 1000.0 * USD;
      if e.completion.Some? {
        SameQuotient(e.completion.value, p);
      }
      if e.cacheRead.Some? {
        SameQuotient(e.cacheRead.value, p);
      }
    }
    hide RoundRatio;
  }

  /** Over whole lists with distinct ids, against one provider that states the same prices. */
  lemma ListsAgree(entries: seq<Entry>, catalog: Catalog, provider: Provider, id: Id)
    requires DistinctIds(entries) && catalog.Keys == {provider}
    requires forall i :: 0 <= i < |entries| ==> Comparable(entries[i])
    requires forall i :: 0 <= i < |entries| ==>
               entries[i].id in catalog[provider] && catalog[provider][entries[i].id] == PerMillion(entries[i])
    requires forall other :: other in catalog[provider] ==> exists i :: 0 <= i < |entries| && entries[i].id == other
    ensures At(OpenRouterPrices(entries), id) == BestRatios(Best(catalog, [provider], id))
  {
    OpenRouterAt(entries, id);
    assert [provider][..0] == [];
    assert Best(catalog, [provider][..0], id) == None;
    assert Best(catalog, [provider], id) == CandidateOf(catalog, provider, id);
    hide OpenRouterPrices, At, Best, OpenRouterRatios, Comparable, BuildCandidate;
    if i :| 0 <= i < |entries| && entries[i].id == id {
      ConvertersAgreeIff(entries[i], provider);
    }
  }
}
