/**
 Keeping a channel's model list in step with its upstream
 (controller/channel_upstream_update.go).
 */
module UpstreamSync {
  import opened Text
  import opened Lists

  // ---------------------------------------------------------------------------
  // Model name lists
  // ---------------------------------------------------------------------------

  /** Trim every name and drop the empty ones. */
  function Clean(models: seq<string>): seq<string> {
    if models == [] then []
    else
      var rest, name := Clean(models[..|models| - 1]), TrimSpace(models[|models| - 1]);
      if name == "" then rest else rest + [name]
  }

  function Normalize(models: seq<string>): seq<string> {
    Uniq(Clean(models))
  }

  function Without(xs: seq<string>, ys: seq<string>): seq<string> {
    Filter(xs, x => x !in ys)
  }

  function Within(xs: seq<string>, ys: seq<string>): seq<string> {
    Filter(xs, x => x in ys)
  }

  function Merge(base: seq<string>, appended: seq<string>): seq<string> {
    Normalize(base) + Without(Normalize(appended), Normalize(base))
  }

  function Subtract(base: seq<string>, removed: seq<string>): seq<string> {
    Without(Normalize(base), Normalize(removed))
  }

  function Intersect(base: seq<string>, allowed: seq<string>): seq<string> {
    Within(Normalize(base), Normalize(allowed))
  }

  /** Add wins when a name is in both selections. */
  function ApplySelected(origin: seq<string>, add: seq<string>, remove: seq<string>): seq<string> {
    var adds := Normalize(add);
    Subtract(Merge(origin, adds), Subtract(Normalize(remove), adds))
  }

  /** No duplicates, and every name is trimmed and not empty. */
  ghost predicate Normal(names: seq<string>) {
    NoDup(names) && forall i :: 0 <= i < |names| ==> names[i] != "" && TrimSpace(names[i]) == names[i]
  }

  lemma {:induction false} CleanMember(models: seq<string>, name: string)
    ensures name in Clean(models) <==> name != "" && exists i :: 0 <= i < |models| && TrimSpace(models[i]) == name
  {
    if models != [] {
      var n := |models| - 1;
      CleanMember(models[..n], name);
      if exists i :: 0 <= i < n && TrimSpace(models[..n][i]) == name {
        var i :| 0 <= i < n && TrimSpace(models[..n][i]) == name;
        assert TrimSpace(models[i]) == name;
      }
    }
  }

  lemma {:induction false} CleanFixed(names: seq<string>)
    requires forall i :: 0 <= i < |names| ==> names[i] != "" && TrimSpace(names[i]) == names[i]
    ensures Clean(names) == names
  {
    if names != [] {
      CleanFixed(names[..|names| - 1]);
    }
  }

  lemma NormalizeMember(models: seq<string>, name: string)
    ensures name in Normalize(models) <==> name != "" && exists i :: 0 <= i < |models| && TrimSpace(models[i]) == name
  {
    CleanMember(models, name);
    UniqMember(Clean(models), name);
  }

  lemma NormalizeNormal(models: seq<string>)
    ensures Normal(Normalize(models))
  {
    UniqNoDup(Clean(models));
    var names := Normalize(models);
    forall i | 0 <= i < |names|
      ensures names[i] != "" && TrimSpace(names[i]) == names[i]
    {
      NormalizeMember(models, names[i]);
      var j :| 0 <= j < |models| && TrimSpace(models[j]) == names[i];
      TrimSpaceIdempotent(models[j]);
    }
  }

  lemma NormalizeFixed(names: seq<string>)
    requires Normal(names)
    ensures Normalize(names) == names
  {
    CleanFixed(names);
    UniqFixed(names);
  }

  lemma FilterNormal(names: seq<string>, p: string -> bool)
    requires Normal(names)
    ensures Normal(Filter(names, p))
  {
    FilterNoDup(names, p);
    FilterMembers(names, p);
  }

  lemma MergeNormal(base: seq<string>, appended: seq<string>)
    ensures Normal(Merge(base, appended))
    ensures forall x :: x in Merge(base, appended) <==> x in Normalize(base) || x in Normalize(appended)
  {
    var b, a := Normalize(base), Normalize(appended);
    NormalizeNormal(base);
    NormalizeNormal(appended);
    FilterNormal(a, x => x !in b);
    FilterMembers(a, x => x !in b);
    var more := Without(a, b);
    forall i | 0 <= i < |more|
      ensures more[i] !in b
    {
      assert more[i] in more;
    }
    NoDupConcat(b, more);
  }

  lemma SubtractNormal(base: seq<string>, removed: seq<string>)
    ensures Normal(Subtract(base, removed))
    ensures forall x :: x in Subtract(base, removed) <==> x in Normalize(base) && x !in Normalize(removed)
  {
    NormalizeNormal(base);
    FilterNormal(Normalize(base), x => x !in Normalize(removed));
    FilterMembers(Normalize(base), x => x !in Normalize(removed));
  }

  lemma IntersectNormal(base: seq<string>, allowed: seq<string>)
    ensures Normal(Intersect(base, allowed))
    ensures forall x :: x in Intersect(base, allowed) <==> x in Normalize(base) && x in Normalize(allowed)
  {
    NormalizeNormal(base);
    FilterNormal(Normalize(base), x => x in Normalize(allowed));
    FilterMembers(Normalize(base), x => x in Normalize(allowed));
  }

  /** The loop of `mergeModelNames`, with its set of names already seen. */
  method MergeModelNames(base: seq<string>, appended: seq<string>) returns (merged: seq<string>)
    ensures merged == Merge(base, appended)
  {
    merged := Normalize(base);
    ghost var first := merged;
    NormalizeNormal(appended);
    var more := Normalize(appended);
    var seen := set x | x in merged;
    var i := 0;
    while i < |more|
      invariant 0 <= i <= |more|
      invariant merged == first + Without(more[..i], first)
      invariant forall x :: x in seen <==> x in first || x in more[..i]
    {
      var name := more[i];
      assert name !in more[..i];
      WithoutNext(more, i, first);
      hide Without, Normalize;
      if name !in seen {
        seen := seen + {name};
        merged := merged + [name];
      }
      i := i + 1;
    }
    assert more[..i] == more;
  }

  lemma WithoutNext(names: seq<string>, i: nat, removed: seq<string>)
    requires i < |names|
    ensures Without(names[..i + 1], removed) ==
        Without(names[..i], removed) + if names[i] in removed then [] else [names[i]]
    ensures names[..i + 1] == names[..i] + [names[i]]
  {
    assert names[..i + 1][..i] == names[..i];
  }

  // ---------------------------------------------------------------------------
  // Pending changes
  // ---------------------------------------------------------------------------

  /** Whether a pattern matches a name; an invalid pattern matches nothing. */
  type Matcher = (string, string) -> bool

  const REGEX_PREFIX := "regex:"

  predicate IgnoredBy(entry: string, name: string, matches: Matcher) {
    if REGEX_PREFIX <= entry then matches(TrimSpace(entry[|REGEX_PREFIX|..]), name) else entry == name
  }

  predicate Ignored(entries: seq<string>, name: string, matches: Matcher) {
    exists i :: 0 <= i < |entries| && IgnoredBy(entries[i], name, matches)
  }

  /** A name is ignored by an entry that is the name, or by a pattern behind "regex:" that matches it. */
  lemma IgnoredIff(entries: seq<string>, name: string, matches: Matcher)
    ensures Ignored(entries, name, matches) <==>
              || (name in entries && !("regex:" <= name))
              || exists pattern :: "regex:" + pattern in entries && matches(TrimSpace(pattern), name)
  {
    if i :| 0 <= i < |entries| && IgnoredBy(entries[i], name, matches) {
      if "regex:" <= entries[i] {
        var pattern := entries[i][|"regex:"|..];
        assert "regex:" + pattern == entries[i];
        assert "regex:" + pattern in entries && matches(TrimSpace(pattern), name);
      }
    }
    if name in entries && !("regex:" <= name) {
      LiteralEntryIgnores(entries, name, matches);
    }
    if pattern :| "regex:" + pattern in entries && matches(TrimSpace(pattern), name) {
      var i :| 0 <= i < |entries| && entries[i] == "regex:" + pattern;
      assert entries[i][|"regex:"|..] == pattern;
      assert IgnoredBy(entries[i], name, matches);
    }
  }

  /** The fixed side of a detection: the upstream's names, the model mapping and the matcher. */
  datatype Upstream = Upstream(names: seq<string>, mapping: map<string, string>, matches: Matcher)

  predicate IsPendingAdd(u: Upstream, local: seq<string>, ignored: seq<string>, name: string) {
    name !in local && name !in u.mapping.Values && !Ignored(ignored, name, u.matches)
  }

  function PendingAdd(u: Upstream, local: seq<string>, ignored: seq<string>): seq<string> {
    var l, e := Normalize(local), Normalize(ignored);
    Filter(Normalize(u.names), name => IsPendingAdd(u, l, e, name))
  }

  /** Sources of the mapping are aliases and stay although the upstream does not list them. */
  function PendingRemove(u: Upstream, local: seq<string>): seq<string> {
    var names := Normalize(u.names);
    Filter(Normalize(local), name => name !in u.mapping && name !in names)
  }

  lemma PendingAddMembers(u: Upstream, local: seq<string>, ignored: seq<string>)
    ensures Normal(PendingAdd(u, local, ignored))
    ensures forall x :: x in PendingAdd(u, local, ignored) <==>
              x in Normalize(u.names) && IsPendingAdd(u, Normalize(local), Normalize(ignored), x)
  {
    var l, e := Normalize(local), Normalize(ignored);
    NormalizeNormal(u.names);
    FilterNormal(Normalize(u.names), name => IsPendingAdd(u, l, e, name));
    FilterMembers(Normalize(u.names), name => IsPendingAdd(u, l, e, name));
  }

  lemma PendingRemoveMembers(u: Upstream, local: seq<string>)
    ensures Normal(PendingRemove(u, local))
    ensures forall x :: x in PendingRemove(u, local) <==>
              x in Normalize(local) && x !in u.mapping && x !in Normalize(u.names)
  {
    var names := Normalize(u.names);
    NormalizeNormal(local);
    FilterNormal(Normalize(local), name => name !in u.mapping && name !in names);
    FilterMembers(Normalize(local), name => name !in u.mapping && name !in names);
  }

  // ---------------------------------------------------------------------------
  // The stored list is text
  // ---------------------------------------------------------------------------

  /** `Channel.GetModels`. */
  function GetModels(text: string): seq<string> {
    if text == "" then [] else Split(TrimBy(text, IsComma), ',')
  }

  function Local(text: string): seq<string> {
    Normalize(GetModels(text))
  }

  ghost predicate CommaFree(names: seq<string>) {
    SepFree(names, ',')
  }

  lemma LocalCommaFree(text: string)
    ensures Normal(Local(text)) && CommaFree(Local(text))
  {
    NormalizeNormal(GetModels(text));
    var names := Local(text);
    forall i | 0 <= i < |names|
      ensures ',' !in names[i]
    {
      NormalizeMember(GetModels(text), names[i]);
      assert text != "";
      SplitPartsSepFree(TrimBy(text, IsComma), ',');
      var j :| 0 <= j < |GetModels(text)| && TrimSpace(GetModels(text)[j]) == names[i];
      if ',' in names[i] {
        TrimByChars(GetModels(text)[j], IsSpace, ',');
      }
    }
  }

  /** A joined normal list without commas reads back as itself. */
  lemma ModelsRoundTrip(names: seq<string>)
    requires Normal(names) && CommaFree(names)
    ensures Local(Join(names, ',')) == names
  {
    NormalizeFixed(names);
    if names != [] {
      JoinEnds(names, ',');
      TrimByFixed(Join(names, ','), IsComma);
      SplitJoin(names, ',');
    }
  }

  // ---------------------------------------------------------------------------
  // Detecting and applying
  // ---------------------------------------------------------------------------

  datatype State = State(
    models: string,
    ignored: seq<string>,
    detected: seq<string>,
    removed: seq<string>,
    lastCheck: int,
    autoSync: bool)

  function DetectedAdd(st: State, u: Upstream): seq<string> {
    PendingAdd(u, GetModels(st.models), st.ignored)
  }

  function DetectedRemove(st: State, u: Upstream): seq<string> {
    PendingRemove(u, GetModels(st.models))
  }

  /** The outcome of a successful check; with auto-sync, additions are applied at once. */
  function Detect(st: State, u: Upstream, allowAuto: bool, now: int): State {
    var add, remove := DetectedAdd(st, u), DetectedRemove(st, u);
    if allowAuto && st.autoSync && |add| > 0
    then st.(models := Join(Merge(Local(st.models), add), ','), detected := [], removed := remove, lastCheck := now)
    else st.(detected := add, removed := remove, lastCheck := now)
  }

  datatype Selection = Selection(add: seq<string>, ignore: seq<string>, remove: seq<string>)

  function Added(st: State, sel: Selection): seq<string> {
    Intersect(sel.add, Normalize(st.detected))
  }

  function NewlyIgnored(st: State, sel: Selection): seq<string> {
    Intersect(sel.ignore, Normalize(st.detected))
  }

  function Removed(st: State, sel: Selection): seq<string> {
    Subtract(Intersect(sel.remove, Normalize(st.removed)), Added(st, sel))
  }

  function NextModels(st: State, sel: Selection): seq<string> {
    ApplySelected(Local(st.models), Added(st, sel), Removed(st, sel))
  }

  function Remaining(st: State, sel: Selection): seq<string> {
    Subtract(Normalize(st.detected), Added(st, sel) + NewlyIgnored(st, sel))
  }

  function Apply(st: State, sel: Selection, now: int): State {
    var added, next := Added(st, sel), NextModels(st, sel);
    var ignored := Merge(st.ignored, NewlyIgnored(st, sel));
    st.(models := if next == Local(st.models) then st.models else Join(next, ','),
        ignored := if |added| > 0 then Subtract(ignored, added) else ignored,
        detected := Remaining(st, sel),
        removed := Subtract(Normalize(st.removed), Removed(st, sel)),
        lastCheck := now)
  }

  /** A channel row and its settings, as the two handlers update them. */
  class Channel {
    var models: string
    var ignored: seq<string>
    var detected: seq<string>
    var removed: seq<string>
    var lastCheck: int
    var autoSync: bool

    constructor (st: State)
      ensures View() == st
    {
      models, ignored, detected := st.models, st.ignored, st.detected;
      removed, lastCheck, autoSync := st.removed, st.lastCheck, st.autoSync;
    }

    function View(): State
      reads this
    {
      State(models, ignored, detected, removed, lastCheck, autoSync)
    }

    /**
     `checkAndPersistChannelUpstreamModelUpdates`. A check that comes too soon does
     nothing; a failed fetch only moves the time of the last check.
     */
    method Check(fetched: bool, u: Upstream, force: bool, allowAuto: bool, minInterval: int, now: int)
      returns (modelsChanged: bool, autoAdded: nat)
      modifies this
      ensures var before := old(View());
              if !force && before.lastCheck > 0 && now - before.lastCheck < minInterval
              then View() == before && !modelsChanged && autoAdded == 0
              else if !fetched then View() == before.(lastCheck := now) && !modelsChanged && autoAdded == 0
              else
                && View() == Detect(before, u, allowAuto, now)
                && (modelsChanged <==> allowAuto && before.autoSync && |DetectedAdd(before, u)| > 0)
                && autoAdded == (if modelsChanged then |DetectedAdd(before, u)| else 0)
    {
      modelsChanged, autoAdded := false, 0;
      if !force && lastCheck > 0 && now - lastCheck < minInterval {
        return;
      }
      ghost var before := View();
      var pendingAdd := PendingAdd(u, GetModels(models), ignored);
      var pendingRemove := PendingRemove(u, GetModels(models));
      lastCheck := now;
      if !fetched {
        return;
      }
      if allowAuto && autoSync && |pendingAdd| > 0 {
        var origin := Normalize(GetModels(models));
        var merged := MergeModelNames(origin, pendingAdd);
        AutoSyncGrows(before, u);
        if |merged| > |origin| {
          models := Join(merged, ',');
          autoAdded := |merged| - |origin|;
          modelsChanged := true;
        }
        detected := [];
      } else {
        detected := pendingAdd;
      }
      removed := pendingRemove;
    }

    /** `applyChannelUpstreamModelUpdates`. */
    method ApplyUpdates(sel: Selection, now: int)
      returns (added: seq<string>, removedModels: seq<string>, remaining: seq<string>, modelsChanged: bool)
      modifies this
      ensures var before := old(View());
              && View() == Apply(before, sel, now)
              && added == Added(before, sel) && removedModels == Removed(before, sel)
              && remaining == Remaining(before, sel)
              && (modelsChanged <==> NextModels(before, sel) != Local(before.models))
    {
      hide Intersect, Subtract, Merge, ApplySelected, Normalize, GetModels, Join;
      var pendingAdd, pendingRemove := Normalize(detected), Normalize(removed);
      added := Intersect(sel.add, pendingAdd);
      var ignore := Intersect(sel.ignore, pendingAdd);
      removedModels := Subtract(Intersect(sel.remove, pendingRemove), added);
      var origin := Normalize(GetModels(models));
      var next := ApplySelected(origin, added, removedModels);
      modelsChanged := origin != next;
      if modelsChanged {
        models := Join(next, ',');
      }
      ignored := MergeModelNames(ignored, ignore);
      if |added| > 0 {
        ignored := Subtract(ignored, added);
      }
      remaining := Subtract(pendingAdd, added + ignore);
      detected := remaining;
      removed := Subtract(pendingRemove, removedModels);
      lastCheck := now;
    }
  }

  /** The detected additions are new, so merging appends all of them. */
  lemma AutoSyncGrows(st: State, u: Upstream)
    ensures var origin, add := Local(st.models), DetectedAdd(st, u);
            Merge(origin, add) == origin + add
  {
    var origin, add := Local(st.models), DetectedAdd(st, u);
    NormalizeNormal(GetModels(st.models));
    NormalizeFixed(origin);
    PendingAddMembers(u, GetModels(st.models), st.ignored);
    NormalizeFixed(add);
    forall i | 0 <= i < |add|
      ensures add[i] !in origin
    {
      assert add[i] in add;
    }
    FilterAll(add, x => x !in origin);
  }

  /** `x` is new: the upstream lists it, it is not local, not the target of a mapping and not ignored. */
  ghost predicate IsNew(st: State, u: Upstream, x: string) {
    && x in Normalize(u.names) && x !in Local(st.models) && x !in u.mapping.Values
    && !Ignored(Normalize(st.ignored), x, u.matches)
  }

  /** `x` is gone: it is local, not the source of a mapping, and the upstream does not list it. */
  ghost predicate IsGone(st: State, u: Upstream, x: string) {
    x in Local(st.models) && x !in u.mapping.Keys && x !in Normalize(u.names)
  }

  /**
   A successful check records what is gone and the time. What is new becomes pending, or with
   auto-sync is appended to the models, which otherwise stay as they are.
   */
  lemma DetectMeans(st: State, u: Upstream, allowAuto: bool, now: int)
    ensures var after := Detect(st, u, allowAuto, now);
            && after.lastCheck == now && after.autoSync == st.autoSync && after.ignored == st.ignored
            && (forall x :: x in after.removed <==> IsGone(st, u, x))
            && (if allowAuto && st.autoSync && exists x :: IsNew(st, u, x)
                then && after.detected == []
                     && exists add :: after.models == Join(Local(st.models) + add, ',')
                                      && NoDup(add) && forall x :: x in add <==> IsNew(st, u, x)
                else after.models == st.models && forall x :: x in after.detected <==> IsNew(st, u, x))
  {
    var add := DetectedAdd(st, u);
    PendingAddMembers(u, GetModels(st.models), st.ignored);
    PendingRemoveMembers(u, GetModels(st.models));
    AutoSyncGrows(st, u);
    NoMembersMeansEmpty(add);
    assert forall x :: x in add <==> IsNew(st, u, x);
    hide Normalize, Ignored, Local, PendingAdd, PendingRemove, Merge, Join;
  }

  // ---------------------------------------------------------------------------
  // One selection
  // ---------------------------------------------------------------------------

  lemma SelectionMembers(st: State, sel: Selection)
    ensures Normal(Added(st, sel)) && Normal(NewlyIgnored(st, sel)) && Normal(Removed(st, sel))
    ensures forall x :: x in Added(st, sel) <==> x in Normalize(sel.add) && x in Normalize(st.detected)
    ensures forall x :: x in NewlyIgnored(st, sel) <==> x in Normalize(sel.ignore) && x in Normalize(st.detected)
    ensures forall x :: x in Removed(st, sel) <==>
              x in Normalize(sel.remove) && x in Normalize(st.removed) && x !in Added(st, sel)
  {
    NormalizeNormal(st.detected);
    NormalizeFixed(Normalize(st.detected));
    NormalizeNormal(st.removed);
    NormalizeFixed(Normalize(st.removed));
    IntersectNormal(sel.add, Normalize(st.detected));
    IntersectNormal(sel.ignore, Normalize(st.detected));
    var chosen := Intersect(sel.remove, Normalize(st.removed));
    IntersectNormal(sel.remove, Normalize(st.removed));
    NormalizeFixed(chosen);
    NormalizeFixed(Added(st, sel));
    SubtractNormal(chosen, Added(st, sel));
    hide Intersect, Subtract, Normalize, Normal;
  }

  /** Names of a concatenation, after cleaning. */
  lemma NormalizeConcatMember(a: seq<string>, b: seq<string>, x: string)
    ensures x in Normalize(a + b) <==> x in Normalize(a) || x in Normalize(b)
  {
    NormalizeMember(a, x);
    NormalizeMember(b, x);
    NormalizeMember(a + b, x);
    if x in Normalize(a) {
      var i :| 0 <= i < |a| && TrimSpace(a[i]) == x;
      assert TrimSpace((a + b)[i]) == x;
    }
    if x in Normalize(b) {
      var i :| 0 <= i < |b| && TrimSpace(b[i]) == x;
      assert TrimSpace((a + b)[|a| + i]) == x;
    }
    hide TrimSpace, Normalize;
  }

  /**
   Any selection splits the detected additions into added, ignored and remaining
   ones; what remains is in neither selection, nothing undetected is applied, and an
   added name is neither removed nor ignored.
   */
  lemma SelectionPartitions(st: State, sel: Selection, now: int, x: string)
    ensures var pending, added, ignore, rest := Normalize(st.detected), Added(st, sel), NewlyIgnored(st, sel),
        Remaining(st, sel);
            && (x in pending <==> x in added || x in ignore || x in rest)
            && !(x in rest && (x in added || x in ignore))
            && (x in added ==> x in Normalize(sel.add) && x !in Removed(st, sel) && x !in Apply(st, sel, now).ignored)
            && (x in Removed(st, sel) ==> x in Normalize(sel.remove) && x in Normalize(st.removed))
  {
    var added, ignore := Added(st, sel), NewlyIgnored(st, sel);
    SelectionMembers(st, sel);
    NormalizeNormal(st.detected);
    NormalizeFixed(Normalize(st.detected));
    NormalizeFixed(added);
    NormalizeFixed(ignore);
    SubtractNormal(Normalize(st.detected), added + ignore);
    NormalizeConcatMember(added, ignore, x);
    SubtractNormal(Merge(st.ignored, ignore), added);
    hide Normalize, Subtract, Merge, Normal, Added, NewlyIgnored, Removed, NextModels;
  }

  /** Chosen for addition, out of what is pending. */
  ghost predicate Chosen(st: State, sel: Selection, x: string) {
    x in Normalize(sel.add) && x in Normalize(st.detected)
  }

  /** Chosen for removal, out of what is gone, unless it is also added. */
  ghost predicate Dropped(st: State, sel: Selection, x: string) {
    x in Normalize(sel.remove) && x in Normalize(st.removed) && !Chosen(st, sel, x)
  }

  /**
   What a selection leaves, name by name: of the models, of the ignore list and of the two
   pending lists. Names that were not offered have no effect, and adding goes before removing
   and ignoring.
   */
  lemma ApplyMeans(st: State, sel: Selection, now: int, x: string)
    ensures var after := Apply(st, sel, now);
            && after.lastCheck == now && after.autoSync == st.autoSync
            && (x in NextModels(st, sel) <==> (x in Local(st.models) && !Dropped(st, sel, x)) || Chosen(st, sel, x))
            && (x in Normalize(after.ignored) <==>
                  && !Chosen(st, sel, x)
                  && (x in Normalize(st.ignored) || (x in Normalize(sel.ignore) && x in Normalize(st.detected))))
            && (x in after.detected <==>
                  x in Normalize(st.detected) && x !in Normalize(sel.add) && x !in Normalize(sel.ignore))
            && (x in after.removed <==> x in Normalize(st.removed) && !Dropped(st, sel, x))
            && (NextModels(st, sel) == Local(st.models) ==> after.models == st.models)
            && (NextModels(st, sel) != Local(st.models) ==> after.models == Join(NextModels(st, sel), ','))
  {
    var origin, added, removed := Local(st.models), Added(st, sel), Removed(st, sel);
    SelectionMembers(st, sel);
    SelectionPartitions(st, sel, now, x);
    IgnoredAfterApply(st, sel, now, x);
    NextModelsShape(st, sel);
    FilterMembers(origin, y => y !in removed);
    FilterMembers(added, y => y !in origin);
    NormalizeNormal(st.removed);
    NormalizeFixed(Normalize(st.removed));
    NormalizeFixed(removed);
    SubtractNormal(Normalize(st.removed), removed);
    hide Normal, Normalize, Merge, Subtract, Intersect, NextModels, Local, Added, Removed, NewlyIgnored, Remaining;
  }

  /** The new list: the surviving original names in their order, then the additions that are new. */
  lemma NextModelsShape(st: State, sel: Selection)
    ensures var origin := Local(st.models);
            NextModels(st, sel) == Without(origin, Removed(st, sel)) + Without(Added(st, sel), origin)
    ensures Normal(NextModels(st, sel))
  {
    var origin, added, removed := Local(st.models), Added(st, sel), Removed(st, sel);
    NormalizeNormal(GetModels(st.models));
    SelectionMembers(st, sel);
    NormalizeFixed(origin);
    NormalizeFixed(added);
    NormalizeFixed(removed);
    // Removing the additions from the removals changes nothing: they are disjoint.
    SubtractNormal(removed, added);
    forall i | 0 <= i < |removed|
      ensures removed[i] !in added
    {
      assert removed[i] in removed;
    }
    FilterAll(removed, x => x !in added);
    assert Subtract(removed, added) == removed;
    MergeNormal(origin, added);
    NormalizeFixed(Merge(origin, added));
    SubtractNormal(Merge(origin, added), removed);
    var unseen := Without(added, origin);
    FilterConcat(origin, unseen, x => x !in removed);
    FilterMembers(added, x => x !in origin);
    forall i | 0 <= i < |unseen|
      ensures unseen[i] !in removed
    {
      assert unseen[i] in unseen;
    }
    FilterAll(unseen, x => x !in removed);
  }

  // ---------------------------------------------------------------------------
  // Detect, apply everything, detect again
  // ---------------------------------------------------------------------------

  /** A check without auto-sync, followed by applying all it found. */
  function DetectAndApplyAll(st: State, u: Upstream, now: int): State {
    var found := Detect(st, u, false, now);
    Apply(found, Selection(Normalize(found.detected), [], Normalize(found.removed)), now)
  }

  /** Fewer entries ignore fewer names. */
  lemma IgnoredMonotone(few: seq<string>, many: seq<string>, name: string, matches: Matcher)
    requires forall e :: e in few ==> e in many
    requires Ignored(few, name, matches)
    ensures Ignored(many, name, matches)
  {
    var i :| 0 <= i < |few| && IgnoredBy(few[i], name, matches);
    assert few[i] in few;
    var j :| 0 <= j < |many| && many[j] == few[i];
  }

  lemma ApplyAllEffects(st: State, u: Upstream, now: int)
    ensures var after, add, remove := DetectAndApplyAll(st, u, now), DetectedAdd(st, u), DetectedRemove(st, u);
            && after.models == (var next := Without(Local(st.models), remove) + add;
                                if next == Local(st.models) then st.models else Join(next, ','))
            && (forall e :: e in Normalize(after.ignored) <==> e in Normalize(st.ignored) && e !in add)
            && Normal(Without(Local(st.models), remove) + add)
  {
    var found := Detect(st, u, false, now);
    var add, remove := DetectedAdd(st, u), DetectedRemove(st, u);
    PendingAddMembers(u, GetModels(st.models), st.ignored);
    PendingRemoveMembers(u, GetModels(st.models));
    NormalizeFixed(add);
    NormalizeFixed(remove);
    var sel := Selection(add, [], remove);
    assert found.detected == add && found.removed == remove;
    SelectionMembers(found, sel);
    WithinSelf(add);
    WithinSelf(remove);
    assert Added(found, sel) == add;
    DisjointSubtract(remove, add, u);
    assert Removed(found, sel) == remove;
    NextModelsShape(found, sel);
    NormalizeNormal(GetModels(st.models));
    forall i | 0 <= i < |add|
      ensures add[i] !in Local(st.models)
    {
      assert add[i] in add;
    }
    FilterAll(add, x => x !in Local(st.models));
    assert NewlyIgnored(found, sel) == [];
    MergeNormal(st.ignored, []);
    NormalizeFixed(Merge(st.ignored, []));
    SubtractNormal(Merge(st.ignored, []), add);
    NormalizeFixed(Subtract(Merge(st.ignored, []), add));
    hide Normal, Detect, PendingAdd, PendingRemove, Merge, Subtract;
  }

  lemma WithinSelf(names: seq<string>)
    requires Normal(names)
    ensures Intersect(names, names) == names
  {
    NormalizeFixed(names);
    FilterAll(names, x => x in names);
  }

  lemma DisjointSubtract(base: seq<string>, removed: seq<string>, u: Upstream)
    requires Normal(base) && Normal(removed)
    requires forall x :: x in base ==> x !in Normalize(u.names)
    requires forall x :: x in removed ==> x in Normalize(u.names)
    ensures Subtract(base, removed) == base
  {
    NormalizeFixed(base);
    NormalizeFixed(removed);
    forall i | 0 <= i < |base|
      ensures base[i] !in removed
    {
      assert base[i] in base;
    }
    FilterAll(base, x => x !in removed);
  }

  /** Names that are only hidden by an ignore entry keep one that is not itself being added. */
  ghost predicate IgnoredStaysIgnored(st: State, u: Upstream) {
    forall x :: x in Normalize(u.names) && x !in Local(st.models) && x !in u.mapping.Values
                && Ignored(Normalize(st.ignored), x, u.matches)
                ==> Ignored(Without(Normalize(st.ignored), DetectedAdd(st, u)), x, u.matches)
  }

  lemma NewLocalNames(st: State, u: Upstream, now: int)
    requires CommaFree(DetectedAdd(st, u))
    ensures var next := Local(DetectAndApplyAll(st, u, now).models);
            forall x :: x in next <==> (x in Local(st.models) && x !in DetectedRemove(st, u)) || x in DetectedAdd(st, u)
  {
    var local, add, remove := Local(st.models), DetectedAdd(st, u), DetectedRemove(st, u);
    ApplyAllEffects(st, u, now);
    LocalCommaFree(st.models);
    FilterMembers(local, x => x !in remove);
    var next := Without(local, remove) + add;
    forall i | 0 <= i < |next|
      ensures ',' !in next[i]
    {
      if i < |Without(local, remove)| {
        assert next[i] in Without(local, remove);
      }
    }
    ModelsRoundTrip(next);
    hide Normal, DetectAndApplyAll, PendingAdd, PendingRemove, Local;
  }

  lemma CommaNameStaysPending(st: State, u: Upstream, now: int, i: nat)
    requires i < |DetectedAdd(st, u)| && ',' in DetectedAdd(st, u)[i]
    ensures DetectedAdd(st, u)[i] in DetectedAdd(DetectAndApplyAll(st, u, now), u)
  {
    var after, name := DetectAndApplyAll(st, u, now), DetectedAdd(st, u)[i];
    assert name in DetectedAdd(st, u);
    PendingAddMembers(u, GetModels(st.models), st.ignored);
    PendingAddMembers(u, GetModels(after.models), after.ignored);
    LocalCommaFree(after.models);
    ApplyAllEffects(st, u, now);
    if Ignored(Normalize(after.ignored), name, u.matches) {
      IgnoredMonotone(Normalize(after.ignored), Normalize(st.ignored), name, u.matches);
    }
    hide Normal, DetectAndApplyAll, Normalize, Ignored;
  }

  /** With comma-free additions, what is still pending is what lost its last ignore entry. */
  lemma StillPendingMembers(st: State, u: Upstream, now: int, x: string)
    requires CommaFree(DetectedAdd(st, u))
    ensures var after := DetectAndApplyAll(st, u, now);
            && (x in DetectedAdd(after, u) <==>
                  && x in Normalize(u.names) && x !in Local(st.models) && x !in u.mapping.Values
                  && Ignored(Normalize(st.ignored), x, u.matches)
                  && !Ignored(Without(Normalize(st.ignored), DetectedAdd(st, u)), x, u.matches))
            && x !in DetectedRemove(after, u)
  {
    var after, add := DetectAndApplyAll(st, u, now), DetectedAdd(st, u);
    ApplyAllEffects(st, u, now);
    NewLocalNames(st, u, now);
    PendingAddMembers(u, GetModels(st.models), st.ignored);
    PendingAddMembers(u, GetModels(after.models), after.ignored);
    PendingRemoveMembers(u, GetModels(st.models));
    PendingRemoveMembers(u, GetModels(after.models));
    var kept := Without(Normalize(st.ignored), add);
    FilterMembers(Normalize(st.ignored), e => e !in add);
    hide Normal, DetectAndApplyAll, Normalize, Ignored, DetectedAdd, DetectedRemove;
    if Ignored(kept, x, u.matches) {
      IgnoredMonotone(kept, Normalize(after.ignored), x, u.matches);
    }
    if Ignored(Normalize(after.ignored), x, u.matches) {
      IgnoredMonotone(Normalize(after.ignored), kept, x, u.matches);
    }
  }

  lemma NoMembersMeansEmpty(names: seq<string>)
    ensures names == [] <==> forall x :: x !in names
  {
    if |names| > 0 {
      assert names[0] in names;
    }
  }

  /**
   Detecting, applying everything and detecting again finds nothing to add exactly
   when no detected name contains a comma and no ignored name loses its last entry;
   then it finds nothing to remove either.
   */
  lemma ConvergesIff(st: State, u: Upstream, now: int)
    ensures var after := DetectAndApplyAll(st, u, now);
            && (DetectedAdd(after, u) == [] <==> CommaFree(DetectedAdd(st, u)) && IgnoredStaysIgnored(st, u))
            && (DetectedAdd(after, u) == [] ==> DetectedRemove(after, u) == [])
  {
    var after, add := DetectAndApplyAll(st, u, now), DetectedAdd(st, u);
    if CommaFree(add) {
      forall x
        ensures x in DetectedAdd(after, u) <==>
                  && x in Normalize(u.names) && x !in Local(st.models) && x !in u.mapping.Values
                  && Ignored(Normalize(st.ignored), x, u.matches)
                  && !Ignored(Without(Normalize(st.ignored), add), x, u.matches)
        ensures x !in DetectedRemove(after, u)
      {
        StillPendingMembers(st, u, now, x);
      }
      hide DetectAndApplyAll, Normalize, Ignored, DetectedAdd, DetectedRemove, Local;
      NoMembersMeansEmpty(DetectedRemove(after, u));
      if IgnoredStaysIgnored(st, u) {
        NoMembersMeansEmpty(DetectedAdd(after, u));
      }
    } else {
      var i :| 0 <= i < |add| && ',' in add[i];
      CommaNameStaysPending(st, u, now, i);
      hide DetectAndApplyAll;
    }
  }

  // ---------------------------------------------------------------------------
  // Auto-sync
  // ---------------------------------------------------------------------------

  /**
   With auto-sync, a check appends exactly the detected additions behind all the
   local names; the next check finds nothing to add exactly when none of them
   contains a comma.
   */
  lemma AutoSyncConvergesIff(st: State, u: Upstream, now: int)
    requires st.autoSync
    ensures var after := Detect(st, u, true, now);
            && (CommaFree(DetectedAdd(st, u)) ==> Local(after.models) == Local(st.models) + DetectedAdd(st, u))
            && (DetectedAdd(after, u) == [] <==> CommaFree(DetectedAdd(st, u)))
  {
    var after, local, add := Detect(st, u, true, now), Local(st.models), DetectedAdd(st, u);
    LocalCommaFree(st.models);
    PendingAddMembers(u, GetModels(st.models), st.ignored);
    PendingAddMembers(u, GetModels(after.models), after.ignored);
    AutoSyncGrows(st, u);
    MergeNormal(local, add);
    if |add| == 0 {
      assert local + add == local;
    } else if CommaFree(add) {
      ModelsRoundTrip(local + add);
      hide Normalize, Ignored;
      NoMembersMeansEmpty(DetectedAdd(after, u));
    } else {
      var i :| 0 <= i < |add| && ',' in add[i];
      LocalCommaFree(after.models);
      assert add[i] in add;
      assert add[i] in DetectedAdd(after, u);
    }
  }

  // ---------------------------------------------------------------------------
  // An ignored name never comes back
  // ---------------------------------------------------------------------------

  datatype Step =
    | Checked(u: Upstream, allowAuto: bool, now: int)
    | Applied(sel: Selection, now: int)

  function Next(st: State, step: Step): State {
    match step
    case Checked(u, allowAuto, now) => Detect(st, u, allowAuto, now)
    case Applied(sel, now) => Apply(st, sel, now)
  }

  function Run(st: State, steps: seq<Step>): State
    decreases |steps|
  {
    if steps == [] then st else Run(Next(st, steps[0]), steps[1..])
  }

  /** `name` is an ignore entry taken literally, and is not pending. */
  ghost predicate Dismissed(st: State, name: string) {
    !(REGEX_PREFIX <= name) && name in Normalize(st.ignored) && name !in Normalize(st.detected)
  }

  lemma LiteralEntryIgnores(entries: seq<string>, name: string, matches: Matcher)
    requires name in entries && !(REGEX_PREFIX <= name)
    ensures Ignored(entries, name, matches)
  {
    var i :| 0 <= i < |entries| && entries[i] == name;
    assert IgnoredBy(entries[i], name, matches);
  }

  lemma CheckKeepsDismissed(st: State, u: Upstream, allowAuto: bool, now: int, name: string)
    requires Dismissed(st, name)
    ensures Dismissed(Detect(st, u, allowAuto, now), name)
  {
    PendingAddMembers(u, GetModels(st.models), st.ignored);
    LiteralEntryIgnores(Normalize(st.ignored), name, u.matches);
    NormalizeFixed(DetectedAdd(st, u));
    NormalizeMember([], name);
    hide Normal, Ignored, PendingAdd, Merge, Local, Normalize;
  }

  lemma ApplyKeepsDismissed(st: State, sel: Selection, now: int, name: string)
    requires Dismissed(st, name)
    ensures Dismissed(Apply(st, sel, now), name)
  {
    IgnoredAfterApply(st, sel, now, name);
    SelectionPartitions(st, sel, now, name);
    SelectionMembers(st, sel);
    NormalizeFixed(Remaining(st, sel));
    hide Normal, Normalize, Merge, Subtract, Intersect, NextModels;
  }

  /** The ignore list after a selection: the old and the newly ignored entries that were not added. */
  lemma IgnoredAfterApply(st: State, sel: Selection, now: int, name: string)
    ensures name in Normalize(Apply(st, sel, now).ignored) <==>
              (name in Normalize(st.ignored) || name in NewlyIgnored(st, sel)) && name !in Added(st, sel)
    ensures Normal(Remaining(st, sel))
  {
    var added, ignore := Added(st, sel), NewlyIgnored(st, sel);
    SelectionMembers(st, sel);
    NormalizeFixed(added);
    NormalizeFixed(ignore);
    MergeNormal(st.ignored, ignore);
    NormalizeFixed(Merge(st.ignored, ignore));
    SubtractNormal(Merge(st.ignored, ignore), added);
    NormalizeFixed(Subtract(Merge(st.ignored, ignore), added));
    SubtractNormal(Normalize(st.detected), added + ignore);
    hide Normal, Normalize, Merge, Subtract, NextModels, Added, NewlyIgnored;
  }

  /** Ignoring a detected name without adding it dismisses it. */
  lemma IgnoringDismisses(st: State, sel: Selection, now: int, name: string)
    requires name in Normalize(sel.ignore) && name in Normalize(st.detected) && name !in Normalize(sel.add)
    requires !(REGEX_PREFIX <= name)
    ensures Dismissed(Apply(st, sel, now), name)
  {
    IgnoredAfterApply(st, sel, now, name);
    SelectionPartitions(st, sel, now, name);
    SelectionMembers(st, sel);
    NormalizeFixed(Remaining(st, sel));
    hide Normal, Normalize, Merge, Subtract, Intersect, NextModels;
  }

  /** Whatever the upstream lists and whatever is selected later, a dismissed name is never pending again. */
  lemma {:induction false} DismissedForEver(st: State, steps: seq<Step>, name: string)
    requires Dismissed(st, name)
    ensures Dismissed(Run(st, steps), name)
    decreases |steps|
  {
    if steps != [] {
      match steps[0] {
        case Checked(u, allowAuto, now) => CheckKeepsDismissed(st, u, allowAuto, now, name);
        case Applied(sel, now) => ApplyKeepsDismissed(st, sel, now, name);
      }
      hide Dismissed, Detect, Apply;
      DismissedForEver(Next(st, steps[0]), steps[1..], name);
    }
  }
}
