/**
 Filling in the derived fields of a list of models (`enrichModels` in
 controller/model_meta.go): one pass over the prices and one channel query for all
 models, shown to give each model what a lookup for that model alone gives.

 Go's map order is arbitrary, so lists built from a map are specified as listing a
 set without repetition. Encoding the endpoint list as JSON is left symbolic.
 */
module Enrich {
  import opened Text
  import opened Lists

  const EXACT := 0
  const PREFIX := 1
  const CONTAINS := 2
  const SUFFIX := 3

  datatype Option<T> = None | Some(value: T)
  datatype Tag = Tag(text: string)
  datatype Name = Name(text: string)
  datatype BoundChannel = BoundChannel(name: string, kind: int)

  /** The stored endpoint text, or the list it is filled with. */
  datatype Endpoints = Stored(text: string) | Listed(types: seq<Tag>)

  datatype Meta = Meta(
    name: Name,
    rule: int,
    endpoints: Endpoints,
    bound: seq<BoundChannel>,
    groups: seq<Tag>,
    quotas: seq<int>,
    matched: seq<Name>,
    count: nat)

  datatype Pricing = Pricing(name: Name, endpoints: seq<Tag>, groups: seq<Tag>, quota: int)

  /** What the model package knows: prices, per-model caches and the enabled channels of each model. */
  datatype World = World(
    pricings: seq<Pricing>,
    endpointsOf: Name -> seq<Tag>,
    groupsOf: Name -> seq<Tag>,
    quotasOf: Name -> seq<int>,
    channels: map<Name, seq<BoundChannel>>)

  // ---------------------------------------------------------------------------
  // Matching
  // ---------------------------------------------------------------------------

  predicate HasSuffix(s: string, t: string) {
    |t| <= |s| && s[|s| - |t|..] == t
  }

  predicate Contains(s: string, t: string) {
    exists i :: 0 <= i <= |s| && OccursAt(s, t, i)
  }

  predicate OccursAt(s: string, t: string, i: nat) {
    i + |t| <= |s| && s[i..i + |t|] == t
  }

  predicate Matches(rule: int, pattern: Name, name: Name) {
    if rule == PREFIX then pattern.text <= name.text
    else if rule == SUFFIX then HasSuffix(name.text, pattern.text)
    else if rule == CONTAINS then Contains(name.text, pattern.text)
    else false
  }

  lemma PrefixIff(s: string, t: string)
    ensures t <= s <==> exists rest :: s == t + rest
  {
    if t <= s {
      assert s == t + s[|t|..];
    }
  }

  lemma SuffixIff(s: string, t: string)
    ensures HasSuffix(s, t) <==> exists front :: s == front + t
  {
    if HasSuffix(s, t) {
      assert s == s[..|s| - |t|] + t;
    }
  }

  lemma ContainsIff(s: string, t: string)
    ensures Contains(s, t) <==> exists front, rest :: s == front + t + rest
  {
    if i :| 0 <= i <= |s| && OccursAt(s, t, i) {
      assert s == s[..i] + t + s[i + |t|..];
    }
    if front, rest :| s == front + t + rest {
      assert OccursAt(s, t, |front|);
    }
  }

  /** The pattern stands at the beginning, anywhere or at the end of the name; no other rule matches. */
  lemma MatchesIff(rule: int, pattern: Name, name: Name)
    ensures Matches(1, pattern, name) <==> exists rest :: name.text == pattern.text + rest
    ensures Matches(2, pattern, name) <==> exists front, rest :: name.text == front + pattern.text + rest
    ensures Matches(3, pattern, name) <==> exists front :: name.text == front + pattern.text
    ensures rule !in {1, 2, 3} ==> !Matches(rule, pattern, name)
  {
    PrefixIff(name.text, pattern.text);
    SuffixIff(name.text, pattern.text);
    ContainsIff(name.text, pattern.text);
    hide HasSuffix, Contains;
  }

  /** What is gathered for one rule model. */
  datatype Info = Info(names: seq<Name>, endpoints: set<Tag>, groups: set<Tag>, quotas: set<int>)

  function WithPricing(info: Option<Info>, p: Pricing): Info {
    var before := if info.Some? then info.value else Info([], {}, {}, {});
    Info(before.names + [p.name], before.endpoints + Elements(p.endpoints),
         before.groups + Elements(p.groups), before.quotas + {p.quota})
  }

  function Elements<T>(xs: seq<T>): set<T> {
    set x | x in xs
  }

  /** One price after the other; a model nothing matches has no entry. */
  function Gather(pricings: seq<Pricing>, m: Meta): Option<Info> {
    if pricings == [] then None
    else
      var n := |pricings| - 1;
      var before := Gather(pricings[..n], m);
      if Matches(m.rule, m.name, pricings[n].name) then Some(WithPricing(before, pricings[n])) else before
  }

  function Matched(pricings: seq<Pricing>, m: Meta): seq<Pricing> {
    Filter(pricings, (p: Pricing) => Matches(m.rule, m.name, p.name))
  }

  ghost predicate ListsAll<T>(xs: seq<T>, s: set<T>) {
    NoDup(xs) && Elements(xs) == s
  }

  ghost predicate Increasing(xs: seq<int>) {
    forall i, j :: 0 <= i < j < |xs| ==> xs[i] < xs[j]
  }

  // ---------------------------------------------------------------------------
  // The composite key of a channel
  // ---------------------------------------------------------------------------

  function Key(c: BoundChannel): string {
    c.name + "_" + Itoa(c.kind)
  }

  lemma ItoaNoUnderscore(n: int)
    ensures '_' !in Itoa(n)
  {
  }

  lemma SeparatorNotLater(a: string, b: string, x: string, y: string)
    requires a + "_" + x == b + "_" + y && '_' !in x
    ensures |b| <= |a|
  {
    assert (b + "_" + y)[|b|] == '_';
    assert forall i :: |a| < i < |a + "_" + x| ==> (a + "_" + x)[i] == x[i - |a| - 1];
  }

  /** Text before and after the last separator is determined by the whole. */
  lemma LastSeparator(a: string, b: string, x: string, y: string)
    requires a + "_" + x == b + "_" + y && '_' !in x && '_' !in y
    ensures a == b && x == y
  {
    var s := a + "_" + x;
    SeparatorNotLater(a, b, x, y);
    SeparatorNotLater(b, a, y, x);
    assert a == s[..|a|] && b == s[..|b|];
    assert x == s[|a| + 1..] && y == s[|b| + 1..];
  }

  /** Different channels have different keys, so none overwrites another. */
  lemma KeyInjective(c: BoundChannel, d: BoundChannel)
    requires Key(c) == Key(d)
    ensures c == d
  {
    ItoaNoUnderscore(c.kind);
    ItoaNoUnderscore(d.kind);
    LastSeparator(c.name, d.name, Itoa(c.kind), Itoa(d.kind));
    ItoaInjective(c.kind, d.kind);
  }

  // ---------------------------------------------------------------------------
  // What each model gets
  // ---------------------------------------------------------------------------

  /** The channels of the matched names. */
  ghost predicate IsBound(world: World, names: seq<Name>, c: BoundChannel) {
    exists i :: 0 <= i < |names| && names[i] in world.channels && c in world.channels[names[i]]
  }

  function ChannelsOf(world: World, name: Name): seq<BoundChannel> {
    if name in world.channels then world.channels[name] else []
  }

  function NoEndpoints(m: Meta): bool {
    m.endpoints == Stored("")
  }

  /** An exact model is looked up by its own name. */
  function EnrichedExact(m: Meta, world: World): Meta {
    m.(endpoints := if NoEndpoints(m) then Listed(world.endpointsOf(m.name)) else m.endpoints,
       bound := ChannelsOf(world, m.name), groups := world.groupsOf(m.name), quotas := world.quotasOf(m.name))
  }

  /** Its own channels, groups and quota types; its endpoints only if none are stored; nothing else changes. */
  lemma ExactMeans(m: Meta, world: World)
    ensures var r := EnrichedExact(m, world);
            && r.name == m.name && r.rule == m.rule && r.matched == m.matched && r.count == m.count
            && (m.name in world.channels ==> r.bound == world.channels[m.name])
            && (m.name !in world.channels ==> r.bound == [])
            && r.groups == world.groupsOf(m.name) && r.quotas == world.quotasOf(m.name)
            && (m.endpoints == Stored("") ==> r.endpoints == Listed(world.endpointsOf(m.name)))
            && (m.endpoints != Stored("") ==> r.endpoints == m.endpoints)
  {
  }

  /** A rule model gets the unions over the prices it matches, and keeps what it has when nothing matches. */
  ghost predicate EnrichedRule(m: Meta, r: Meta, world: World) {
    var found := Matched(world.pricings, m);
    && r.name == m.name && r.rule == m.rule
    && r.matched == NamesOf(found) && r.count == |found|
    && (found == [] ==> r.endpoints == m.endpoints && r.groups == m.groups && r.quotas == m.quotas)
    && (found != [] ==>
          && (if m.endpoints == Stored("")
              then r.endpoints.Listed? && ListsAll(r.endpoints.types, UnionOfEndpoints(found))
              else r.endpoints == m.endpoints)
          && ListsAll(r.groups, UnionOfGroups(found))
          && Increasing(r.quotas) && Elements(r.quotas) == (set i | 0 <= i < |found| :: found[i].quota))
    && (if exists c :: IsBound(world, r.matched, c)
        then NoDup(r.bound) && forall c :: c in r.bound <==> IsBound(world, r.matched, c)
        else r.bound == m.bound)
  }

  function NamesOf(found: seq<Pricing>): (r: seq<Name>)
    ensures |r| == |found| && forall i :: 0 <= i < |r| ==> r[i] == found[i].name
  {
    seq(|found|, i requires 0 <= i < |found| => found[i].name)
  }

  ghost function UnionOfEndpoints(found: seq<Pricing>): set<Tag> {
    set i, t | 0 <= i < |found| && t in found[i].endpoints :: t
  }

  ghost function UnionOfGroups(found: seq<Pricing>): set<Tag> {
    set i, t | 0 <= i < |found| && t in found[i].groups :: t
  }

  ghost predicate Enriched(m: Option<Meta>, r: Option<Meta>, world: World) {
    && (m.None? <==> r.None?)
    && (m.Some? && m.value.rule == 0 ==> r.value == EnrichedExact(m.value, world))
    && (m.Some? && m.value.rule != 0 ==> EnrichedRule(m.value, r.value, world))
  }

  /** What the gathering loop collects is the matched prices. */
  ghost predicate IsInfo(info: Option<Info>, found: seq<Pricing>) {
    && (info.None? <==> found == [])
    && (info.Some? ==>
          && info.value.names == NamesOf(found) && info.value.endpoints == UnionOfEndpoints(found)
          && info.value.groups == UnionOfGroups(found)
          && info.value.quotas == set i | 0 <= i < |found| :: found[i].quota)
  }

  lemma IsInfoNext(info: Option<Info>, found: seq<Pricing>, p: Pricing)
    requires IsInfo(info, found)
    ensures IsInfo(Some(WithPricing(info, p)), found + [p])
  {
    var more := found + [p];
    var next := WithPricing(info, p);
    assert more[|found|] == p;
    assert forall i :: 0 <= i < |found| ==> more[i] == found[i];
    assert next.names == NamesOf(more);
    forall t
      ensures t in UnionOfEndpoints(more) <==> t in UnionOfEndpoints(found) || t in p.endpoints
      ensures t in UnionOfGroups(more) <==> t in UnionOfGroups(found) || t in p.groups
    {
      if t in UnionOfEndpoints(found) {
        var i :| 0 <= i < |found| && t in found[i].endpoints;
        assert t in more[i].endpoints;
      }
      if t in UnionOfGroups(found) {
        var i :| 0 <= i < |found| && t in found[i].groups;
        assert t in more[i].groups;
      }
    }
    assert next.endpoints == UnionOfEndpoints(more);
    assert next.groups == UnionOfGroups(more);
    forall q
      ensures q in next.quotas <==> exists i :: 0 <= i < |more| && more[i].quota == q
    {
      if q in next.quotas && q != p.quota {
        var i :| 0 <= i < |found| && found[i].quota == q;
        assert more[i].quota == q;
      }
    }
  }

  lemma {:induction false} GatherIsInfo(pricings: seq<Pricing>, m: Meta)
    ensures IsInfo(Gather(pricings, m), Matched(pricings, m))
  {
    if pricings != [] {
      var n := |pricings| - 1;
      GatherIsInfo(pricings[..n], m);
      hide IsInfo, Matches, WithPricing;
      if Matches(m.rule, m.name, pricings[n].name) {
        IsInfoNext(Gather(pricings[..n], m), Matched(pricings[..n], m), pricings[n]);
      }
    }
  }

  // ---------------------------------------------------------------------------
  // Lists from sets
  // ---------------------------------------------------------------------------

  method ToList(tags: set<Tag>) returns (list: seq<Tag>)
    ensures ListsAll(list, tags)
  {
    list := [];
    var pending := tags;
    while pending != {}
      invariant pending <= tags && NoDup(list) && forall t :: t in list <==> t in tags - pending
      decreases pending
    {
      var t :| t in pending;
      assert forall i :: 0 <= i < |list| ==> list[i] in list;
      list := list + [t];
      pending := pending - {t};
    }
  }

  method SortedList(quotas: set<int>) returns (list: seq<int>)
    ensures Increasing(list) && Elements(list) == quotas
  {
    list := [];
    var pending := quotas;
    while pending != {}
      invariant pending <= quotas && Increasing(list) && forall q :: q in list <==> q in quotas && q !in pending
      invariant forall p, q :: p in list && q in pending ==> p < q
      decreases pending
    {
      var least := Least(pending);
      assert forall i :: 0 <= i < |list| ==> list[i] in list;
      list := list + [least];
      pending := pending - {least};
    }
    assert forall q :: q in Elements(list) <==> q in quotas;
  }

  method Least(quotas: set<int>) returns (least: int)
    requires quotas != {}
    ensures least in quotas && forall q :: q in quotas ==> least <= q
  {
    HasElement(quotas);
    least :| least in quotas;
    var pending := quotas - {least};
    while pending != {}
      invariant pending <= quotas && least in quotas && forall q :: q in quotas && q !in pending ==> least <= q
      decreases pending
    {
      HasElement(pending);
      var q :| q in pending;
      if q < least {
        least := q;
      }
      pending := pending - {q};
    }
  }

  lemma HasElement(s: set<int>)
    ensures s == {} || exists i :: i in s
  {
    if forall i :: i !in s {
      assert s == {};
    }
  }

  // ---------------------------------------------------------------------------
  // The channels of one rule model
  // ---------------------------------------------------------------------------

  /** The channel set keyed by name and type: each listed channel under its key, and nothing else. */
  ghost predicate Keyed(table: map<string, BoundChannel>, seen: set<BoundChannel>) {
    && (forall c :: c in seen ==> Key(c) in table)
    && (forall k :: k in table ==> table[k] in seen && Key(table[k]) == k)
  }

  lemma KeyedNext(table: map<string, BoundChannel>, seen: set<BoundChannel>, c: BoundChannel)
    requires Keyed(table, seen)
    ensures Keyed(table[Key(c) := c], seen + {c})
  {
    hide Key;
  }

  lemma ElementsNext<T>(xs: seq<T>, i: nat)
    requires i < |xs|
    ensures Elements(xs[..i + 1]) == Elements(xs[..i]) + {xs[i]}
  {
    assert xs[..i + 1] == xs[..i] + [xs[i]];
  }

  method AddChannels(table: map<string, BoundChannel>, cs: seq<BoundChannel>, ghost seen: set<BoundChannel>)
    returns (r: map<string, BoundChannel>)
    requires Keyed(table, seen)
    ensures Keyed(r, seen + Elements(cs))
  {
    r := table;
    var i := 0;
    assert seen + Elements(cs[..0]) == seen;
    hide *;
    while i < |cs|
      invariant 0 <= i <= |cs| && Keyed(r, seen + Elements(cs[..i]))
    {
      KeyedNext(r, seen + Elements(cs[..i]), cs[i]);
      ElementsNext(cs, i);
      assert seen + (Elements(cs[..i]) + {cs[i]}) == seen + Elements(cs[..i]) + {cs[i]};
      r := r[Key(cs[i]) := cs[i]];
      i := i + 1;
    }
    assert cs[..i] == cs;
  }

  function BoundTo(channels: map<Name, seq<BoundChannel>>, names: seq<Name>): set<BoundChannel> {
    set i, c | 0 <= i < |names| && names[i] in channels && c in channels[names[i]] :: c
  }

  lemma BoundToNext(channels: map<Name, seq<BoundChannel>>, names: seq<Name>, i: nat)
    requires i < |names|
    ensures BoundTo(channels, names[..i + 1])
         == BoundTo(channels, names[..i]) + Elements(if names[i] in channels then channels[names[i]] else [])
  {
    var more, few := names[..i + 1], names[..i];
    assert more[i] == names[i];
    forall c
      ensures c in BoundTo(channels, more) <==>
                c in BoundTo(channels, few) || (names[i] in channels && c in channels[names[i]])
    {
      if c in BoundTo(channels, few) {
        var j :| 0 <= j < i && few[j] in channels && c in channels[few[j]];
        assert more[j] == few[j];
      }
      if c in BoundTo(channels, more) {
        var j :| 0 <= j <= i && more[j] in channels && c in channels[more[j]];
        if j < i {
          assert few[j] == more[j];
        }
      }
    }
  }

  method CollectBound(names: seq<Name>, channels: map<Name, seq<BoundChannel>>) returns (list: seq<BoundChannel>)
    ensures NoDup(list) && Elements(list) == BoundTo(channels, names)
  {
    var table: map<string, BoundChannel> := map[];
    var i := 0;
    assert BoundTo(channels, names[..0]) == {};
    while i < |names|
      invariant 0 <= i <= |names| && Keyed(table, BoundTo(channels, names[..i]))
    {
      BoundToNext(channels, names, i);
      hide *;
      var cs := if names[i] in channels then channels[names[i]] else [];
      table := AddChannels(table, cs, BoundTo(channels, names[..i]));
      i := i + 1;
    }
    assert names[..i] == names;
    list := ValuesOf(table, BoundTo(channels, names));
  }

  method ValuesOf(table: map<string, BoundChannel>, ghost seen: set<BoundChannel>) returns (list: seq<BoundChannel>)
    requires Keyed(table, seen)
    ensures NoDup(list) && Elements(list) == seen
  {
    list := [];
    var pending := table.Keys;
    hide Key;
    while pending != {}
      invariant pending <= table.Keys && NoDup(list)
      invariant forall c :: c in list <==> Key(c) in table.Keys - pending && table[Key(c)] == c
      decreases pending
    {
      var k :| k in pending;
      list := list + [table[k]];
      pending := pending - {k};
    }
    forall c | c in seen
      ensures c in list
    {
      KeyInjective(c, table[Key(c)]);
    }
  }

  // ---------------------------------------------------------------------------
  // The passes
  // ---------------------------------------------------------------------------

  /** The batch query: the channels of the asked names. */
  function Query(world: World, names: set<Name>): map<Name, seq<BoundChannel>> {
    map n | n in names && n in world.channels :: world.channels[n]
  }

  method FillRule(m: Meta, info: Option<Info>, channels: map<Name, seq<BoundChannel>>) returns (r: Meta)
    ensures r.name == m.name && r.rule == m.rule && r.count == |r.matched|
    ensures r.matched == if info.Some? then info.value.names else []
    ensures if info.None? then r.endpoints == m.endpoints && r.groups == m.groups && r.quotas == m.quotas
            else
              && (if NoEndpoints(m) then r.endpoints.Listed? && ListsAll(r.endpoints.types, info.value.endpoints)
                  else r.endpoints == m.endpoints)
              && ListsAll(r.groups, info.value.groups) && Increasing(r.quotas)
              && Elements(r.quotas) == info.value.quotas
    ensures var bound := BoundTo(channels, r.matched);
            if bound != {} then NoDup(r.bound) && Elements(r.bound) == bound else r.bound == m.bound
  {
    r := m;
    var names: seq<Name> := [];
    if info.Some? {
      names := info.value.names;
      if NoEndpoints(m) {
        var types := ToList(info.value.endpoints);
        r := r.(endpoints := Listed(types));
      }
      var groups := ToList(info.value.groups);
      var quotas := SortedList(info.value.quotas);
      r := r.(groups := groups, quotas := quotas);
    }
    var bound := CollectBound(names, channels);
    if |bound| > 0 {
      assert bound[0] in Elements(bound);
      r := r.(bound := bound);
    }
    r := r.(matched := names, count := |names|);
  }

  /** Filling from the batch gives what the prices and channels of this model alone give. */
  lemma FilledIsEnriched(m: Meta, r: Meta, info: Option<Info>, world: World, asked: set<Name>)
    requires info == Gather(world.pricings, m)
    requires r.name == m.name && r.rule == m.rule && r.count == |r.matched|
    requires r.matched == if info.Some? then info.value.names else []
    requires if info.None? then r.endpoints == m.endpoints && r.groups == m.groups && r.quotas == m.quotas
             else
               && (if NoEndpoints(m) then r.endpoints.Listed? && ListsAll(r.endpoints.types, info.value.endpoints)
                   else r.endpoints == m.endpoints)
               && ListsAll(r.groups, info.value.groups) && Increasing(r.quotas)
               && Elements(r.quotas) == info.value.quotas
    requires forall i :: 0 <= i < |r.matched| ==> r.matched[i] in asked
    requires var bound := BoundTo(Query(world, asked), r.matched);
             if bound != {} then NoDup(r.bound) && Elements(r.bound) == bound else r.bound == m.bound
    ensures EnrichedRule(m, r, world)
  {
    var found := Matched(world.pricings, m);
    GatherIsInfo(world.pricings, m);
    assert r.matched == NamesOf(found);
    BoundIff(world, r.matched, asked);
    hide Gather, Matched, UnionOfEndpoints, UnionOfGroups, Query, NoDup, Increasing, ListsAll;
  }

  lemma BoundIff(world: World, names: seq<Name>, asked: set<Name>)
    requires forall i :: 0 <= i < |names| ==> names[i] in asked
    ensures forall c :: c in BoundTo(Query(world, asked), names) <==> IsBound(world, names, c)
  {
    var found := Query(world, asked);
    forall c
      ensures c in BoundTo(found, names) <==> IsBound(world, names, c)
    {
      if c in BoundTo(found, names) {
        var i :| 0 <= i < |names| && names[i] in found && c in found[names[i]];
        assert names[i] in world.channels;
      }
      if IsBound(world, names, c) {
        var i :| 0 <= i < |names| && names[i] in world.channels && c in world.channels[names[i]];
        assert names[i] in found && c in found[names[i]];
      }
    }
  }

  predicate IsExact(m: Option<Meta>) {
    m.Some? && m.value.rule == EXACT
  }

  predicate IsRule(m: Option<Meta>) {
    m.Some? && m.value.rule != EXACT
  }

  /** The rule models, each once. */
  ghost predicate AreRules(rules: seq<nat>, ms: seq<Option<Meta>>) {
    && NoDup(rules)
    && (forall j :: 0 <= j < |rules| ==> rules[j] < |ms| && IsRule(ms[rules[j]]))
    && (forall i :: 0 <= i < |ms| && IsRule(ms[i]) ==> i in rules)
  }

  /** The exact models by name. */
  ghost predicate AreExact(byName: map<Name, seq<nat>>, ms: seq<Option<Meta>>) {
    && (forall name, i: nat :: Under(byName, name, i) ==> i < |ms| && IsExact(ms[i]) && ms[i].value.name == name)
    && (forall i :: 0 <= i < |ms| && IsExact(ms[i]) ==> Under(byName, ms[i].value.name, i))
  }

  predicate Under(byName: map<Name, seq<nat>>, name: Name, i: nat) {
    name in byName && i in byName[name]
  }

  function Note(byName: map<Name, seq<nat>>, name: Name, i: nat): map<Name, seq<nat>> {
    byName[name := (if name in byName then byName[name] else []) + [i]]
  }

  lemma UnderNext(byName: map<Name, seq<nat>>, name: Name, i: nat)
    ensures forall other, j :: Under(Note(byName, name, i), other, j) <==>
        Under(byName, other, j) || (other == name && j == i)
  {
  }

  method Split(ms: seq<Option<Meta>>) returns (byName: map<Name, seq<nat>>, rules: seq<nat>)
    ensures AreExact(byName, ms) && AreRules(rules, ms)
  {
    byName, rules := map[], [];
    var i := 0;
    while i < |ms|
      invariant 0 <= i <= |ms| && NoDup(rules)
      invariant forall j :: 0 <= j < |rules| ==> rules[j] < i && IsRule(ms[rules[j]])
      invariant forall j :: 0 <= j < i && IsRule(ms[j]) ==> j in rules
      invariant forall name, j: nat :: Under(byName, name, j) ==> j < i && IsExact(ms[j]) && ms[j].value.name == name
      invariant forall j :: 0 <= j < i && IsExact(ms[j]) ==> Under(byName, ms[j].value.name, j)
    {
      if ms[i].Some? {
        var name := ms[i].value.name;
        if ms[i].value.rule == EXACT {
          UnderNext(byName, name, i);
          byName := Note(byName, name, i);
          hide Under, Note;
        } else {
          rules := rules + [i];
        }
      }
      i := i + 1;
    }
  }

  // Exact models.

  method FillExact(models: array<Option<Meta>>, byName: map<Name, seq<nat>>, world: World)
    requires AreExact(byName, models[..])
    modifies models
    ensures forall i :: 0 <= i < models.Length ==>
              models[i] == if IsExact(old(models[i])) then Some(EnrichedExact(old(models[i]).value, world))
                  else old(models[i])
  {
    var channels := Query(world, byName.Keys);
    var pending := byName.Keys;
    while pending != {}
      invariant pending <= byName.Keys
      invariant forall i :: 0 <= i < models.Length ==>
                  models[i] == if IsExact(old(models[i])) && old(models[i]).value.name !in pending
                               then Some(EnrichedExact(old(models[i]).value, world)) else old(models[i])
      decreases pending
    {
      var name :| name in pending;
      forall k | 0 <= k < |byName[name]|
        ensures byName[name][k] < models.Length && IsExact(models[byName[name][k]])
            && models[byName[name][k]].value.name == name
      {
        assert Under(byName, name, byName[name][k]);
      }
      assert forall i :: i in byName[name] <==> Under(byName, name, i);
      FillName(models, byName[name], name, if name in channels then channels[name] else [], world);
      hide EnrichedExact;
      pending := pending - {name};
    }
  }

  /** All models of one name; filling one twice is harmless. */
  method FillName(models: array<Option<Meta>>, indices: seq<nat>, name: Name, cs: seq<BoundChannel>, world: World)
    requires cs == ChannelsOf(world, name)
    requires forall j :: 0 <= j < |indices| ==>
        indices[j] < models.Length && IsExact(models[indices[j]]) && models[indices[j]].value.name == name
    modifies models
    ensures forall i :: 0 <= i < models.Length ==>
              if i in indices then old(models[i]).Some? && models[i] == Some(EnrichedExact(old(models[i]).value, world))
              else models[i] == old(models[i])
  {
    var k := 0;
    while k < |indices|
      invariant 0 <= k <= |indices|
      invariant forall i :: 0 <= i < models.Length && i in indices ==>
          IsExact(old(models[i])) && old(models[i]).value.name == name
      invariant forall i :: 0 <= i < models.Length ==>
                  models[i] == if i in indices[..k] then Some(EnrichedExact(old(models[i]).value, world))
                      else old(models[i])
    {
      var idx := indices[k];
      var m := models[idx].value;
      assert indices[..k + 1] == indices[..k] + [idx];
      if m.endpoints == Stored("") {
        m := m.(endpoints := Listed(world.endpointsOf(m.name)));
      }
      m := m.(bound := cs, groups := world.groupsOf(m.name), quotas := world.quotasOf(m.name));
      assert m == EnrichedExact(old(models[idx]).value, world);
      hide EnrichedExact;
      models[idx] := Some(m);
      k := k + 1;
    }
    assert indices[..k] == indices;
  }

  // Rule models.

  function Lookup(info: map<nat, Info>, i: nat): Option<Info> {
    if i in info then Some(info[i]) else None
  }

  /** One price against every rule model. */
  method GatherOne(ms: seq<Option<Meta>>, rules: seq<nat>, p: Pricing, info: map<nat, Info>) returns (r: map<nat, Info>)
    requires AreRules(rules, ms)
    ensures forall j :: 0 <= j < |rules| ==>
              Lookup(r, rules[j]) == if Matches(ms[rules[j]].value.rule, ms[rules[j]].value.name, p.name)
                                     then Some(WithPricing(Lookup(info, rules[j]), p)) else Lookup(info, rules[j])
    ensures forall i :: i in r ==> i in rules || i in info
  {
    r := info;
    var k := 0;
    hide WithPricing, Matches;
    while k < |rules|
      invariant 0 <= k <= |rules|
      invariant forall j :: 0 <= j < k ==>
                  Lookup(r, rules[j]) == if Matches(ms[rules[j]].value.rule, ms[rules[j]].value.name, p.name)
                                         then Some(WithPricing(Lookup(info, rules[j]), p)) else Lookup(info, rules[j])
      invariant forall j :: k <= j < |rules| ==> Lookup(r, rules[j]) == Lookup(info, rules[j])
      invariant forall i :: i in r ==> i in rules || i in info
    {
      var m := ms[rules[k]].value;
      if Matches(m.rule, m.name, p.name) {
        r := r[rules[k] := WithPricing(Lookup(r, rules[k]), p)];
      }
      k := k + 1;
    }
  }

  method GatherAll(ms: seq<Option<Meta>>, rules: seq<nat>, pricings: seq<Pricing>) returns (info: map<nat, Info>)
    requires AreRules(rules, ms)
    ensures forall j :: 0 <= j < |rules| ==> Lookup(info, rules[j]) == Gather(pricings, ms[rules[j]].value)
    ensures forall i :: i in info ==> i in rules
  {
    info := map[];
    var k := 0;
    assert pricings[..0] == [];
    while k < |pricings|
      invariant 0 <= k <= |pricings|
      invariant forall j :: 0 <= j < |rules| ==> Lookup(info, rules[j]) == Gather(pricings[..k], ms[rules[j]].value)
      invariant forall i :: i in info ==> i in rules
    {
      var next := GatherOne(ms, rules, pricings[k], info);
      assert pricings[..k + 1][..k] == pricings[..k];
      hide WithPricing, Matches;
      info := next;
      k := k + 1;
    }
    assert pricings[..k] == pricings;
  }

  /** All matched names together, for one query. */
  method AllNames(info: map<nat, Info>) returns (names: set<Name>)
    ensures forall i, j :: i in info && 0 <= j < |info[i].names| ==> info[i].names[j] in names
  {
    names := {};
    var pending := info.Keys;
    while pending != {}
      invariant pending <= info.Keys
      invariant forall i, j :: i in info && i !in pending && 0 <= j < |info[i].names| ==> info[i].names[j] in names
      decreases pending
    {
      var i :| i in pending;
      names := names + Elements(info[i].names);
      pending := pending - {i};
    }
  }

  method FillRules(models: array<Option<Meta>>, rules: seq<nat>, info: map<nat, Info>, asked: set<Name>, world: World)
    requires AreRules(rules, models[..])
    requires forall j :: 0 <= j < |rules| ==> Lookup(info, rules[j]) == Gather(world.pricings, models[rules[j]].value)
    requires forall i, j :: i in info && 0 <= j < |info[i].names| ==> info[i].names[j] in asked
    modifies models
    ensures forall i :: 0 <= i < models.Length ==>
              if i in rules
              then old(models[i]).Some? && models[i].Some?
                  && EnrichedRule(old(models[i]).value, models[i].value, world)
              else models[i] == old(models[i])
  {
    var channels := Query(world, asked);
    var k := 0;
    hide EnrichedRule, Gather, Query;
    while k < |rules|
      invariant 0 <= k <= |rules| && AreRules(rules, old(models[..]))
      invariant forall i :: 0 <= i < models.Length ==>
                  if i in rules[..k]
                  then old(models[i]).Some? && models[i].Some?
                      && EnrichedRule(old(models[i]).value, models[i].value, world)
                  else models[i] == old(models[i])
    {
      var idx := rules[k];
      assert idx !in rules[..k];
      assert rules[..k + 1] == rules[..k] + [idx];
      var m := models[idx].value;
      var r := FillRule(m, Lookup(info, idx), channels);
      FilledIsEnriched(m, r, Lookup(info, idx), world, asked);
      models[idx] := Some(r);
      k := k + 1;
    }
    assert rules[..k] == rules;
  }

  /** Every model is enriched as if it were the only one. */
  method EnrichModels(models: array<Option<Meta>>, world: World)
    modifies models
    ensures forall i :: 0 <= i < models.Length ==> Enriched(old(models[i]), models[i], world)
  {
    ghost var ms := models[..];
    var byName, rules := Split(models[..]);
    FillExact(models, byName, world);
    hide EnrichedExact, EnrichedRule, Gather;
    assert AreRules(rules, models[..]);
    var info := GatherAll(models[..], rules, world.pricings);
    var asked := AllNames(info);
    FillRules(models, rules, info, asked, world);
    forall i | 0 <= i < models.Length
      ensures Enriched(ms[i], models[i], world)
    {
      if IsRule(ms[i]) {
        assert i in rules;
      }
    }
  }
}
