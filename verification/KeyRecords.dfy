/**
 The sparse maps of a multi-key channel refine a list of key records: what each
 action does to the list, when a deletion really has that effect, and what holds
 over every sequence of actions.
 */
module KeyRecords {
  import opened Text
  import opened Lists
  import opened KeyText
  import opened MultiKey

  // ---------------------------------------------------------------------------
  // The actions on the list
  // ---------------------------------------------------------------------------

  datatype Action =
    | Disable(i: int)
    | Enable(i: int)
    | EnableAll
    | DisableAll
    | Delete(i: int)
    | DeleteAuto
    | Report(usingKey: string, status: int, reason: string, now: int)

  function Enabled(record: Record): Record {
    Record(record.key, ENABLED, None, None)
  }

  /** Deleting the automatically disabled keys also drops what is left on enabled ones. */
  function Scrub(record: Record): Record {
    if record.status == ENABLED then Enabled(record) else record
  }

  predicate NotAutoDisabled(record: Record) {
    record.status != AUTO_DISABLED
  }

  function Map(records: seq<Record>, f: Record -> Record): (r: seq<Record>)
    ensures |r| == |records| && forall i :: 0 <= i < |r| ==> r[i] == f(records[i])
  {
    seq(|records|, i requires 0 <= i < |records| => f(records[i]))
  }

  function FirstRecord(records: seq<Record>, key: string): (i: int)
    ensures -1 <= i < |records|
  {
    FirstIndex(KeysOf(records), key)
  }

  function KeysOf(records: seq<Record>): (r: seq<string>)
    ensures |r| == |records| && forall i :: 0 <= i < |r| ==> r[i] == records[i].key
  {
    seq(|records|, i requires 0 <= i < |records| => records[i].key)
  }

  function Act(records: seq<Record>, act: Action): seq<Record> {
    match act
    case Disable(i) => if 0 <= i < |records| then records[i := records[i].(status := MANUALLY_DISABLED)] else records
    case Enable(i) => if 0 <= i < |records| then records[i := Enabled(records[i])] else records
    case EnableAll => Map(records, Enabled)
    case DisableAll => Map(records, (r: Record) => if r.status == ENABLED then r.(status := MANUALLY_DISABLED) else r)
    case Delete(i) => if 0 <= i < |records| && |records| > 1 then records[..i] + records[i + 1..] else records
    case DeleteAuto =>
      if exists i :: 0 <= i < |records| && records[i].status == AUTO_DISABLED
      then Map(Filter(records, NotAutoDisabled), Scrub)
      else records
    case Report(usingKey, status, reason, now) =>
      var i := FirstRecord(records, usingKey);
      if i < 0 then records
      else if status == ENABLED then records[i := records[i].(status := ENABLED)]
      else records[i := Record(records[i].key, status, Some(now), Some(reason))]
  }

  /** What the handlers do to the row. */
  function ActRow(row: Row, act: Action, parse: Parser): Row {
    var n := |GetKeys(row.key, parse)|;
    match act
    case Disable(i) => if 0 <= i < row.size then DisableKeyRow(row, i, parse) else row
    case Enable(i) => if 0 <= i < row.size then EnableKeyRow(row, i, parse) else row
    case EnableAll => EnableAllRow(row, parse)
    case DisableAll => if EnabledCount(row.status, row.size) > 0 then DisableAllRow(row, parse) else row
    case Delete(i) => if 0 <= i < row.size && |AllBut(n, i)| > 0 then DeleteKeyRow(row, i, parse) else row
    case DeleteAuto => if |NotAuto(row.status, n)| < n then DeleteDisabledRow(row, parse) else row
    case Report(usingKey, status, reason, now) => ReportRow(row, usingKey, status, reason, now, parse)
  }

  // ---------------------------------------------------------------------------
  // Actions that keep the key text
  // ---------------------------------------------------------------------------

  /** Storing a sound row changes nothing. */
  lemma SaveSound(row: Row, parse: Parser)
    requires Sound(row, parse)
    ensures Save(row, row.key, parse) == row
  {
    assert (map i | i in row.status && i < row.size :: row.status[i]) == row.status;
  }

  lemma DisableRefines(row: Row, i: int, parse: Parser)
    requires Sound(row, parse)
    ensures Sound(ActRow(row, Disable(i), parse), parse)
    ensures Records(ActRow(row, Disable(i), parse), parse) == Act(Records(row, parse), Disable(i))
  {
    hide GetKeys, CountedKeys;
    if 0 <= i < row.size {
      var row' := row.(status := row.status[i := MANUALLY_DISABLED]);
      SaveSound(row', parse);
    }
  }

  lemma EnableRefines(row: Row, i: int, parse: Parser)
    requires Sound(row, parse)
    ensures Sound(ActRow(row, Enable(i), parse), parse)
    ensures Records(ActRow(row, Enable(i), parse), parse) == Act(Records(row, parse), Enable(i))
  {
    hide GetKeys, CountedKeys;
    if 0 <= i < row.size {
      SaveSound(row.(status := row.status - {i}, time := row.time - {i}, reason := row.reason - {i}), parse);
    }
  }

  lemma EnableAllRefines(row: Row, parse: Parser)
    requires Sound(row, parse)
    ensures Sound(ActRow(row, EnableAll, parse), parse)
    ensures Records(ActRow(row, EnableAll, parse), parse) == Act(Records(row, parse), EnableAll)
  {
    hide GetKeys, CountedKeys;
    SaveSound(row.(status := map[], time := map[], reason := map[]), parse);
  }

  lemma DisableAllRefines(row: Row, parse: Parser)
    requires Sound(row, parse)
    ensures Sound(ActRow(row, DisableAll, parse), parse)
    ensures Records(ActRow(row, DisableAll, parse), parse) == Act(Records(row, parse), DisableAll)
  {
    hide GetKeys, CountedKeys;
    EnabledCountIff(row.status, row.size);
    SaveSound(DisabledRow(row), parse);
  }

  lemma ReportedRecords(row: Row, i: nat, status: int, reason: string, now: int, parse: Parser)
    requires Sound(row, parse) && i < row.size
    ensures var row', records := ReportedRow(row, i, status, reason, now), Records(row, parse);
            && Sound(row', parse)
            && Records(row', parse) == if status == ENABLED then records[i := records[i].(status := ENABLED)]
                                       else records[i := Record(records[i].key, status, Some(now), Some(reason))]
  {
    hide GetKeys, CountedKeys;
  }

  lemma ChannelStatusIrrelevant(row: Row, channelStatus: int, parse: Parser)
    ensures Records(row.(channelStatus := channelStatus), parse) == Records(row, parse)
    ensures Sound(row.(channelStatus := channelStatus), parse) <==> Sound(row, parse)
  {
    hide GetKeys, CountedKeys;
  }

  lemma ReportRefines(row: Row, usingKey: string, status: int, reason: string, now: int, parse: Parser)
    requires Sound(row, parse)
    ensures Sound(ActRow(row, Report(usingKey, status, reason, now), parse), parse)
    ensures Records(ActRow(row, Report(usingKey, status, reason, now), parse), parse)
         == Act(Records(row, parse), Report(usingKey, status, reason, now))
  {
    var keys := GetKeys(row.key, parse);
    var i := FirstIndex(keys, usingKey);
    assert KeysOf(Records(row, parse)) == keys;
    if i < 0 {
      ChannelStatusIrrelevant(row, status, parse);
    } else {
      var row1 := ReportedRow(row, i, status, reason, now);
      ReportedRecords(row, i, status, reason, now, parse);
      ChannelStatusIrrelevant(row1, AUTO_DISABLED, parse);
      ChannelStatusIrrelevant(row1, ENABLED, parse);
    }
    hide GetKeys, CountedKeys, FirstIndex, HasEnabled, Records, Sound, ReportedRow;
  }

  // ---------------------------------------------------------------------------
  // The status of the channel
  // ---------------------------------------------------------------------------

  predicate AnyEnabled(records: seq<Record>) {
    exists i :: 0 <= i < |records| && records[i].status == ENABLED
  }

  /**
   The status of the channel after an action, in terms of the records. A report about one of
   the keys disables a channel that is left without an enabled key, and enables it again with
   the key; about no key it is about the channel; about an unknown key it is ignored. The
   administrator's actions on keys leave the channel alone.
   */
  function ActChannel(records: seq<Record>, channelStatus: int, act: Action): int {
    if !act.Report? then channelStatus
    else if exists i :: 0 <= i < |records| && records[i].key == act.usingKey then
      if !AnyEnabled(Act(records, act)) then AUTO_DISABLED
      else if act.status == ENABLED then ENABLED
      else channelStatus
    else if records == [] || act.usingKey == "" then act.status
    else channelStatus
  }

  lemma AnyEnabledIff(row: Row, parse: Parser)
    ensures AnyEnabled(Records(row, parse)) <==> HasEnabled(|GetKeys(row.key, parse)|, row.status)
  {
    var keys := GetKeys(row.key, parse);
    hide GetKeys;
    if i :| 0 <= i < |keys| && StatusAt(row.status, i) == ENABLED {
      assert Records(row, parse)[i].status == ENABLED;
    }
  }

  lemma ReportSetsChannel(row: Row, usingKey: string, status: int, reason: string, now: int, parse: Parser)
    requires Sound(row, parse)
    ensures var act := Report(usingKey, status, reason, now);
            ActRow(row, act, parse).channelStatus == ActChannel(Records(row, parse), row.channelStatus, act)
  {
    var act := Report(usingKey, status, reason, now);
    var keys, records := GetKeys(row.key, parse), Records(row, parse);
    var i := FirstIndex(keys, usingKey);
    ReportRefines(row, usingKey, status, reason, now, parse);
    if i >= 0 {
      assert records[i].key == usingKey;
      AnyEnabledIff(ReportedRow(row, i, status, reason, now), parse);
      ReportedRecords(row, i, status, reason, now, parse);
      assert KeysOf(records) == keys;
    } else {
      assert forall j :: 0 <= j < |records| ==> records[j].key in keys;
    }
    hide GetKeys, CountedKeys, FirstIndex, HasEnabled, Records, Sound;
  }

  /** The channel's status after every action, and when a report leaves the whole row alone. */
  lemma ChannelFollows(row: Row, act: Action, parse: Parser)
    requires Sound(row, parse)
    ensures ActRow(row, act, parse).channelStatus == ActChannel(Records(row, parse), row.channelStatus, act)
    ensures act.Report? && act.usingKey !in GetKeys(row.key, parse) ==>
              ActRow(row, act, parse) == row.(channelStatus := ActChannel(Records(row, parse), row.channelStatus, act))
  {
    if act.Report? {
      ReportSetsChannel(row, act.usingKey, act.status, act.reason, act.now, parse);
    }
    hide GetKeys, CountedKeys, Records, ActChannel;
  }

  // ---------------------------------------------------------------------------
  // Deletions rewrite the key text
  // ---------------------------------------------------------------------------

  /** Rewriting leaves exactly the kept keys if and only if their text reads back. */
  lemma RewrittenKeysIff(before: Row, kept: seq<nat>, parse: Parser)
    requires Below(kept, |GetKeys(before.key, parse)|) && |kept| < |GetKeys(before.key, parse)|
    ensures var remaining := Pick(GetKeys(before.key, parse), kept);
            var row' := Save(before, Join(remaining, '\n'), parse);
            && row'.size == |CountedKeys(row'.key, parse)|
            && ((kept != [] && RoundTrips(remaining, parse))
                <==> CountedKeys(row'.key, parse) == GetKeys(row'.key, parse) == remaining)
  {
    assert GetKeys("", parse) == [];
    hide GetKeys, CountedKeys, Join;
  }

  /** A row whose entries describe the kept keys stands for them once stored if and only if their text reads back. */
  lemma RewriteRefinesIff(before: Row, kept: seq<nat>, goal: seq<Record>, parse: Parser)
    requires Below(kept, |GetKeys(before.key, parse)|) && |kept| < |GetKeys(before.key, parse)| && |goal| == |kept|
    requires Within(before.status, |kept|) && Within(before.time, |kept|) && Within(before.reason, |kept|)
    requires var remaining := Pick(GetKeys(before.key, parse), kept);
             forall j :: 0 <= j < |goal| ==> goal[j] == RecordAt(before, remaining, j)
    ensures var remaining := Pick(GetKeys(before.key, parse), kept);
            var row' := Save(before, Join(remaining, '\n'), parse);
            (Sound(row', parse) && Records(row', parse) == goal) <==> (kept != [] && RoundTrips(remaining, parse))
  {
    var remaining := Pick(GetKeys(before.key, parse), kept);
    var row' := Save(before, Join(remaining, '\n'), parse);
    RewrittenKeysIff(before, kept, parse);
    assert row'.status == map i | i in before.status && i < row'.size :: before.status[i];
    assert row'.time == before.time && row'.reason == before.reason;
    hide GetKeys, CountedKeys, Join, RoundTrips, Save;
    assert KeysOf(Records(row', parse)) == GetKeys(row'.key, parse);
    assert KeysOf(goal) == remaining;
    if kept != [] && RoundTrips(remaining, parse) {
      assert row'.status == before.status;
      assert Sound(row', parse);
      forall j | 0 <= j < |goal|
        ensures Records(row', parse)[j] == goal[j]
      {
      }
    }
  }

  lemma ReindexAt<T>(m: map<int, T>, kept: seq<nat>, j: nat)
    requires j < |kept|
    ensures Lookup(Reindex(m, kept), j) == Lookup(m, kept[j])
  {
  }

  lemma ReindexStatusAt(status: map<int, int>, kept: seq<nat>, j: nat)
    requires j < |kept|
    ensures StatusAt(Reindex(Disabled(status), kept), j) == StatusAt(status, kept[j])
  {
  }

  lemma ReindexWithin<T>(m: map<int, T>, kept: seq<nat>)
    ensures Within(Reindex(m, kept), |kept|)
  {
  }

  /** The entries `delete_key` computes before the row is stored. */
  function Deleting(row: Row, kept: seq<nat>): Row {
    row.(status := Reindex(Disabled(row.status), kept), time := Reindex(row.time, kept),
        reason := Reindex(row.reason, kept))
  }

  lemma DeletingRecord(row: Row, kept: seq<nat>, j: nat, parse: Parser)
    requires Below(kept, |GetKeys(row.key, parse)|) && j < |kept|
    ensures RecordAt(Deleting(row, kept), Pick(GetKeys(row.key, parse), kept), j) == Records(row, parse)[kept[j]]
  {
    ReindexStatusAt(row.status, kept, j);
    ReindexAt(row.time, kept, j);
    ReindexAt(row.reason, kept, j);
    hide GetKeys, Reindex, Disabled;
  }

  lemma DropAt<T>(xs: seq<T>, i: nat, j: nat)
    requires i < |xs| && j < |xs| - 1
    ensures (xs[..i] + xs[i + 1..])[j] == if j < i then xs[j] else xs[j + 1]
  {
  }

  /** Removing one element picks all the others. */
  lemma DropPicks<T>(xs: seq<T>, i: nat)
    requires i < |xs|
    ensures xs[..i] + xs[i + 1..] == Pick(xs, AllBut(|xs|, i))
  {
    AllButShape(|xs|, i);
    var kept, rest := AllBut(|xs|, i), xs[..i] + xs[i + 1..];
    var picked := Pick(xs, kept);
    hide AllBut, Pick;
    assert |rest| == |picked|;
    forall j | 0 <= j < |rest|
      ensures rest[j] == picked[j]
    {
      DropAt(xs, i, j);
    }
  }

  lemma DeletedRow(row: Row, i: int, parse: Parser)
    requires |GetKeys(row.key, parse)| == row.size && 0 <= i < row.size && |AllBut(row.size, i)| > 0
    ensures var kept := AllBut(row.size, i);
            ActRow(row, Delete(i), parse) ==
                Save(Deleting(row, kept), Join(Pick(GetKeys(row.key, parse), kept), '\n'), parse)
  {
    hide GetKeys, Reindex, Disabled, AllBut, Join, Save, Pick;
  }

  lemma DeleteGoal(row: Row, i: int, parse: Parser)
    requires Sound(row, parse) && 0 <= i < row.size && row.size > 1
    ensures var kept := AllBut(row.size, i);
            && 0 < |kept| < row.size && Act(Records(row, parse), Delete(i)) == Pick(Records(row, parse), kept)
            && ActRow(row, Delete(i), parse)
               == Save(Deleting(row, kept), Join(Pick(GetKeys(row.key, parse), kept), '\n'), parse)
  {
    var records := Records(row, parse);
    assert |records| == row.size;
    AllButShape(row.size, i);
    DropPicks(records, i);
    DeletedRow(row, i, parse);
    assert Act(records, Delete(i)) == records[..i] + records[i + 1..];
    hide *;
  }

  /** `delete_key` removes exactly the chosen record if and only if the remaining keys read back as written. */
  lemma DeleteRefinesIff(row: Row, i: int, parse: Parser)
    requires Sound(row, parse) && 0 <= i < row.size && row.size > 1
    ensures var row', goal := ActRow(row, Delete(i), parse), Act(Records(row, parse), Delete(i));
            (Sound(row', parse) && Records(row', parse) == goal) <==> RoundTrips(KeysOf(goal), parse)
  {
    var keys, kept := GetKeys(row.key, parse), AllBut(row.size, i);
    DeleteGoal(row, i, parse);
    var goal := Pick(Records(row, parse), kept);
    var before := Deleting(row, kept);
    ReindexWithin(Disabled(row.status), kept);
    ReindexWithin(row.time, kept);
    ReindexWithin(row.reason, kept);
    forall j | 0 <= j < |kept|
      ensures goal[j] == RecordAt(before, Pick(keys, kept), j)
    {
      DeletingRecord(row, kept, j, parse);
    }
    assert KeysOf(goal) == Pick(keys, kept);
    RewriteRefinesIff(before, kept, goal, parse);
    hide *;
  }

  /** Dropping the automatically disabled records picks the indices that are not automatically disabled. */
  lemma {:induction false} FilterPicksFrom(records: seq<Record>, status: map<int, int>, n: nat)
    requires n <= |records| && forall i :: 0 <= i < |records| ==> records[i].status == StatusAt(status, i)
    ensures Filter(records[..n], NotAutoDisabled) == Pick(records, NotAuto(status, n))
  {
    if n == 0 {
      assert records[..0] == [];
    } else {
      FilterPicksFrom(records, status, n - 1);
      NotAutoNext(status, n - 1);
      FilterNext(records, n - 1);
      PickNext(records, NotAuto(status, n - 1), n - 1);
      hide Filter, NotAuto, Pick, StatusAt;
    }
  }

  lemma FilterNext(records: seq<Record>, n: nat)
    requires n < |records|
    ensures Filter(records[..n + 1], NotAutoDisabled)
         == if records[n].status == AUTO_DISABLED then Filter(records[..n], NotAutoDisabled)
            else Filter(records[..n], NotAutoDisabled) + [records[n]]
  {
    assert records[..n + 1][..n] == records[..n];
  }

  lemma FilterPicks(row: Row, parse: Parser)
    ensures var n := |GetKeys(row.key, parse)|;
            Filter(Records(row, parse), NotAutoDisabled) == Pick(Records(row, parse), NotAuto(row.status, n))
  {
    hide GetKeys;
    var records := Records(row, parse);
    FilterPicksFrom(records, row.status, |records|);
    assert records[..|records|] == records;
  }

  lemma OfDisabledAt<T>(m: map<int, T>, status: map<int, int>, i: int)
    ensures Lookup(OfDisabled(m, status), i) == if StatusAt(status, i) != ENABLED then Lookup(m, i) else None
  {
  }

  /** Some key goes exactly when one is automatically disabled. */
  lemma {:induction false} NotAutoShorterIff(status: map<int, int>, n: nat)
    ensures |NotAuto(status, n)| < n <==> exists i :: 0 <= i < n && StatusAt(status, i) == AUTO_DISABLED
  {
    if n > 0 {
      NotAutoShorterIff(status, n - 1);
    }
  }

  ghost predicate AnyAuto(records: seq<Record>) {
    exists i :: 0 <= i < |records| && records[i].status == AUTO_DISABLED
  }

  /** The entries `delete_disabled_keys` computes before the row is stored. */
  function DeletingAuto(row: Row, kept: seq<nat>): Row {
    row.(status := Reindex(Disabled(row.status), kept),
         time := Reindex(OfDisabled(row.time, row.status), kept),
         reason := Reindex(OfDisabled(row.reason, row.status), kept))
  }

  lemma DeletingAutoRecord(row: Row, kept: seq<nat>, j: nat, parse: Parser)
    requires Below(kept, |GetKeys(row.key, parse)|) && j < |kept|
    ensures RecordAt(DeletingAuto(row, kept), Pick(GetKeys(row.key, parse), kept), j) ==
        Scrub(Records(row, parse)[kept[j]])
  {
    ReindexStatusAt(row.status, kept, j);
    ReindexAt(OfDisabled(row.time, row.status), kept, j);
    ReindexAt(OfDisabled(row.reason, row.status), kept, j);
    OfDisabledAt(row.time, row.status, kept[j]);
    OfDisabledAt(row.reason, row.status, kept[j]);
    hide GetKeys, Reindex, Disabled, OfDisabled;
  }

  lemma DeleteAutoGoal(row: Row, parse: Parser)
    requires Sound(row, parse) && AnyAuto(Records(row, parse))
    ensures var kept := NotAuto(row.status, row.size);
            && |kept| < row.size && Act(Records(row, parse), DeleteAuto) == Map(Pick(Records(row, parse), kept), Scrub)
            && ActRow(row, DeleteAuto, parse)
               == Save(DeletingAuto(row, kept), Join(Pick(GetKeys(row.key, parse), kept), '\n'), parse)
  {
    var records := Records(row, parse);
    var gone :| 0 <= gone < |records| && records[gone].status == AUTO_DISABLED;
    assert StatusAt(row.status, gone) == AUTO_DISABLED;
    NotAutoShorterIff(row.status, row.size);
    FilterPicks(row, parse);
    hide GetKeys, CountedKeys, Reindex, Disabled, OfDisabled, NotAuto, Join, Save, Filter;
  }

  /**
   `delete_disabled_keys` removes exactly the automatically disabled records if and
   only if some key is left and the keys that are left read back as written.
   */
  lemma DeleteAutoRefinesIff(row: Row, parse: Parser)
    requires Sound(row, parse) && AnyAuto(Records(row, parse))
    ensures var row', goal := ActRow(row, DeleteAuto, parse), Act(Records(row, parse), DeleteAuto);
            (Sound(row', parse) && Records(row', parse) == goal) <==> (goal != [] && RoundTrips(KeysOf(goal), parse))
  {
    var keys, kept := GetKeys(row.key, parse), NotAuto(row.status, row.size);
    DeleteAutoGoal(row, parse);
    var goal := Map(Pick(Records(row, parse), kept), Scrub);
    var before := DeletingAuto(row, kept);
    ReindexWithin(Disabled(row.status), kept);
    ReindexWithin(OfDisabled(row.time, row.status), kept);
    ReindexWithin(OfDisabled(row.reason, row.status), kept);
    forall j | 0 <= j < |kept|
      ensures goal[j] == RecordAt(before, Pick(keys, kept), j)
    {
      DeletingAutoRecord(row, kept, j, parse);
    }
    assert KeysOf(goal) == Pick(keys, kept);
    RewriteRefinesIff(before, kept, goal, parse);
    hide *;
  }

  /**
   When every key is automatically disabled the emptied text is not written: the keys
   stay, and all of them are enabled again.
   */
  lemma DeletingEveryKeyEnablesAll(row: Row, parse: Parser)
    requires Sound(row, parse) && row.size > 0
    requires forall i :: 0 <= i < row.size ==> StatusAt(row.status, i) == AUTO_DISABLED
    ensures var row' := ActRow(row, DeleteAuto, parse);
            && Sound(row', parse) && Act(Records(row, parse), DeleteAuto) == []
            && Records(row', parse) == Act(Records(row, parse), EnableAll) != []
  {
    var empty := row.(status := map[], time := map[], reason := map[]);
    NoneLeft(row.status, row.size);
    assert Records(row, parse)[0].status == AUTO_DISABLED;
    DeleteAutoGoal(row, parse);
    ReindexEmpty(Disabled(row.status));
    ReindexEmpty(OfDisabled(row.time, row.status));
    ReindexEmpty(OfDisabled(row.reason, row.status));
    assert DeletingAuto(row, []) == empty;
    assert Pick(GetKeys(row.key, parse), []) == [];
    assert Save(empty, "", parse) == Save(empty, row.key, parse);
    SaveSound(empty, parse);
    hide GetKeys, CountedKeys, ActRow, Save, NotAuto, DeletingAuto, Reindex, Disabled, OfDisabled, Filter, Join;
  }

  lemma {:induction false} NoneLeft(status: map<int, int>, n: nat)
    requires forall i :: 0 <= i < n ==> StatusAt(status, i) == AUTO_DISABLED
    ensures NotAuto(status, n) == []
  {
    if n > 0 {
      NoneLeft(status, n - 1);
    }
  }

  // ---------------------------------------------------------------------------
  // Every run
  // ---------------------------------------------------------------------------

  /** A deletion that leaves keys which read back as written; every other action is fine. */
  predicate Legible(records: seq<Record>, act: Action, parse: Parser) {
    match act
    case Delete(i) => 0 <= i < |records| && |records| > 1 ==> RoundTrips(KeysOf(Act(records, act)), parse)
    case DeleteAuto => Act(records, act) != records ==>
        Act(records, act) != [] && RoundTrips(KeysOf(Act(records, act)), parse)
    case _ => true
  }

  lemma ActRefines(row: Row, act: Action, parse: Parser)
    requires Sound(row, parse) && Legible(Records(row, parse), act, parse)
    ensures Sound(ActRow(row, act, parse), parse)
    ensures Records(ActRow(row, act, parse), parse) == Act(Records(row, parse), act)
  {
    match act
    case Disable(i) => DisableRefines(row, i, parse);
    case Enable(i) => EnableRefines(row, i, parse);
    case EnableAll => EnableAllRefines(row, parse);
    case DisableAll => DisableAllRefines(row, parse);
    case Delete(i) => DeleteOrRefuse(row, i, parse);
    case DeleteAuto => DeleteAutoOrRefuse(row, parse);
    case Report(usingKey, status, reason, now) => ReportRefines(row, usingKey, status, reason, now, parse);
  }

  lemma DeleteOrRefuse(row: Row, i: int, parse: Parser)
    requires Sound(row, parse) && Legible(Records(row, parse), Delete(i), parse)
    ensures Sound(ActRow(row, Delete(i), parse), parse)
    ensures Records(ActRow(row, Delete(i), parse), parse) == Act(Records(row, parse), Delete(i))
  {
    AllButShape(row.size, i);
    if 0 <= i < row.size && row.size > 1 {
      DeleteRefinesIff(row, i, parse);
      hide ActRow, Act, GetKeys, CountedKeys;
    } else {
      hide GetKeys, CountedKeys, DeleteKeyRow;
      assert |GetKeys(row.key, parse)| == row.size;
    }
  }

  lemma DeleteAutoOrRefuse(row: Row, parse: Parser)
    requires Sound(row, parse) && Legible(Records(row, parse), DeleteAuto, parse)
    ensures Sound(ActRow(row, DeleteAuto, parse), parse)
    ensures Records(ActRow(row, DeleteAuto, parse), parse) == Act(Records(row, parse), DeleteAuto)
  {
    if AnyAuto(Records(row, parse)) {
      Shortens(Records(row, parse));
      DeleteAutoRefinesIff(row, parse);
      hide ActRow, Act, GetKeys, CountedKeys;
    } else {
      hide GetKeys, CountedKeys, DeleteDisabledRow;
      NotAutoShorterIff(row.status, row.size);
      assert forall i :: 0 <= i < row.size ==> StatusAt(row.status, i) == Records(row, parse)[i].status;
    }
  }

  lemma {:induction false} FilterShorter(records: seq<Record>)
    ensures |Filter(records, NotAutoDisabled)| <= |records|
    ensures AnyAuto(records) ==> |Filter(records, NotAutoDisabled)| < |records|
  {
    if records != [] {
      FilterShorter(records[..|records| - 1]);
      var n := |records| - 1;
      if AnyAuto(records) && NotAutoDisabled(records[n]) {
        var i :| 0 <= i < |records| && records[i].status == AUTO_DISABLED;
        assert records[..n][i].status == AUTO_DISABLED;
      }
    }
  }

  lemma Shortens(records: seq<Record>)
    requires AnyAuto(records)
    ensures Act(records, DeleteAuto) != records
  {
    FilterShorter(records);
  }

  function Run(row: Row, acts: seq<Action>, parse: Parser): Row {
    if acts == [] then row
    else ActRow(Run(row, acts[..|acts| - 1], parse), acts[|acts| - 1], parse)
  }

  function RunChannel(records: seq<Record>, channelStatus: int, acts: seq<Action>): int {
    if acts == [] then channelStatus
    else
      var n := |acts| - 1;
      ActChannel(RunRecords(records, acts[..n]), RunChannel(records, channelStatus, acts[..n]), acts[n])
  }

  function RunRecords(records: seq<Record>, acts: seq<Action>): seq<Record> {
    if acts == [] then records
    else Act(RunRecords(records, acts[..|acts| - 1]), acts[|acts| - 1])
  }

  ghost predicate LegibleRun(records: seq<Record>, acts: seq<Action>, parse: Parser) {
    forall k :: 0 <= k < |acts| ==> Legible(RunRecords(records, acts[..k]), acts[k], parse)
  }

  /** Over every sequence of actions the row describes the list of records and the channel's status. */
  lemma {:induction false} RunRefines(row: Row, acts: seq<Action>, parse: Parser)
    requires Sound(row, parse) && LegibleRun(Records(row, parse), acts, parse)
    ensures Sound(Run(row, acts, parse), parse)
    ensures Records(Run(row, acts, parse), parse) == RunRecords(Records(row, parse), acts)
    ensures Run(row, acts, parse).channelStatus == RunChannel(Records(row, parse), row.channelStatus, acts)
  {
    if acts != [] {
      var n := |acts| - 1;
      LegiblePrefix(Records(row, parse), acts, parse);
      RunRefines(row, acts[..n], parse);
      ActRefines(Run(row, acts[..n], parse), acts[n], parse);
      ChannelFollows(Run(row, acts[..n], parse), acts[n], parse);
      hide Legible, Sound, Act, ActRow, LegibleRun, Records;
    }
  }

  lemma LegiblePrefix(records: seq<Record>, acts: seq<Action>, parse: Parser)
    requires LegibleRun(records, acts, parse) && acts != []
    ensures LegibleRun(records, acts[..|acts| - 1], parse)
    ensures Legible(RunRecords(records, acts[..|acts| - 1]), acts[|acts| - 1], parse)
  {
    hide Legible, Act;
    var n := |acts| - 1;
    forall k | 0 <= k < n
      ensures Legible(RunRecords(records, acts[..n][..k]), acts[..n][k], parse)
    {
      assert acts[..n][..k] == acts[..k];
    }
  }

  // ---------------------------------------------------------------------------
  // Enabled keys carry no disable time or reason
  // ---------------------------------------------------------------------------

  /** Only a report that re-enables a key can leave a time or reason on an enabled key. */
  lemma CleanKeptIff(records: seq<Record>, act: Action)
    requires Clean(records)
    requires act.Report? ==> act.status in {ENABLED, AUTO_DISABLED, MANUALLY_DISABLED}
    ensures Clean(Act(records, act))
       <==> !(act.Report? && act.status == ENABLED && FirstRecord(records, act.usingKey) >= 0
              && var record := records[FirstRecord(records, act.usingKey)]; (record.time.Some? || record.reason.Some?))
  {
    match act
    case DeleteAuto =>
      FilterMembers(records, NotAutoDisabled);
      hide Filter;
    case Report(usingKey, status, reason, now) =>
      var i := FirstRecord(records, usingKey);
      hide FirstRecord;
      if i >= 0 {
        assert Act(records, act)[i].key == records[i].key;
      }
    case _ =>
  }

  predicate CleanRecord(record: Record) {
    record.status == ENABLED ==> record.time == None && record.reason == None
  }

  /** Enabling a key by hand leaves the list clean exactly when all the other records were. */
  lemma EnableCleansIff(records: seq<Record>, i: nat)
    requires i < |records|
    ensures Clean(Act(records, Enable(i))) <==> forall j :: 0 <= j < |records| && j != i ==> CleanRecord(records[j])
  {
    var after := Act(records, Enable(i));
    assert forall j :: 0 <= j < |records| && j != i ==> after[j] == records[j];
  }

  /** A report that re-enables a key. */
  predicate Reenables(act: Action) {
    act.Report? && act.status == ENABLED
  }

  predicate KnownStatus(act: Action) {
    act.Report? ==> act.status in {ENABLED, AUTO_DISABLED, MANUALLY_DISABLED}
  }

  /** Over every run in which no report re-enables a key, enabled keys carry no time and no reason. */
  lemma {:induction false} CleanRun(records: seq<Record>, acts: seq<Action>)
    requires Clean(records) && forall k :: 0 <= k < |acts| ==> KnownStatus(acts[k]) && !Reenables(acts[k])
    ensures Clean(RunRecords(records, acts))
  {
    if acts != [] {
      var n := |acts| - 1;
      CleanRun(records, acts[..n]);
      CleanKeptIff(RunRecords(records, acts[..n]), acts[n]);
      hide Act, Clean;
    }
  }

  /** After a re-enabling report, enabling that key by hand makes the list clean again. */
  lemma ReenabledByHand(records: seq<Record>, usingKey: string, reason: string, now: int)
    requires Clean(records) && FirstRecord(records, usingKey) >= 0
    ensures Clean(Act(Act(records, Report(usingKey, ENABLED, reason, now)), Enable(FirstRecord(records, usingKey))))
  {
    var i := FirstRecord(records, usingKey);
    var reported := Act(records, Report(usingKey, ENABLED, reason, now));
    hide FirstRecord;
    assert |reported| == |records| && forall j :: 0 <= j < |records| && j != i ==> reported[j] == records[j];
    hide Act;
    EnableCleansIff(reported, i);
  }

  /** Whatever came before, enabling all keys makes the list clean. */
  lemma EnableAllCleansRun(records: seq<Record>, acts: seq<Action>)
    ensures Clean(RunRecords(records, acts + [EnableAll]))
  {
    assert (acts + [EnableAll])[..|acts|] == acts;
  }
}
