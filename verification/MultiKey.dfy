/**
 Managing the keys of a multi-key channel (controller/channel.go, model/channel.go).

 The row stores the keys as text and, per key index, a sparse status, disable time
 and disable reason. Deleting keys rewrites the text and re-indexes the three maps.
 The maps are shown to refine a plain list of key records.
 */
module MultiKey {
  import opened Text
  import opened KeyText

  const ENABLED := 1
  const MANUALLY_DISABLED := 2
  const AUTO_DISABLED := 3

  datatype Row = Row(
    key: string,
    size: int,
    status: map<int, int>,
    time: map<int, int>,
    reason: map<int, string>,
    channelStatus: int)

  datatype Record = Record(key: string, status: int, time: Option<int>, reason: Option<string>)

  function Lookup<T>(m: map<int, T>, i: int): Option<T> {
    if i in m then Some(m[i]) else None
  }

  /** A key without an entry is enabled. */
  function StatusAt(status: map<int, int>, i: int): int {
    if i in status then status[i] else ENABLED
  }

  function RecordAt(row: Row, keys: seq<string>, i: nat): Record
    requires i < |keys|
  {
    Record(keys[i], StatusAt(row.status, i), Lookup(row.time, i), Lookup(row.reason, i))
  }

  /** The list of key records a row stands for. */
  function Records(row: Row, parse: Parser): (records: seq<Record>)
    ensures |records| == |GetKeys(row.key, parse)|
    ensures forall i :: 0 <= i < |records| ==> records[i] == RecordAt(row, GetKeys(row.key, parse), i)
  {
    var keys := GetKeys(row.key, parse);
    seq(|keys|, i requires 0 <= i < |keys| => RecordAt(row, keys, i))
  }

  ghost predicate Within<T>(m: map<int, T>, n: int) {
    forall i :: i in m ==> 0 <= i < n
  }

  /** The size is the number of keys and no map speaks of a key that is not there. */
  ghost predicate Sound(row: Row, parse: Parser) {
    && CountedKeys(row.key, parse) == GetKeys(row.key, parse)
    && row.size == |GetKeys(row.key, parse)|
    && Within(row.status, row.size) && Within(row.time, row.size) && Within(row.reason, row.size)
  }

  /** An enabled key carries no disable time and no reason. */
  ghost predicate Clean(records: seq<Record>) {
    forall i :: 0 <= i < |records| && records[i].status == ENABLED ==>
        records[i].time == None && records[i].reason == None
  }

  // ---------------------------------------------------------------------------
  // Writing the row back
  // ---------------------------------------------------------------------------

  /**
   `Channel.Update`: recount the keys, drop status entries beyond them, and store.
   Zero-valued columns are not written, so an empty key text leaves the stored one.
   */
  function Save(row: Row, newKey: string, parse: Parser): Row {
    var key := if newKey != "" then newKey else row.key;
    var size := |CountedKeys(key, parse)|;
    row.(key := key, size := size, status := map i | i in row.status && i < size :: row.status[i])
  }

  // ---------------------------------------------------------------------------
  // Keeping some keys
  // ---------------------------------------------------------------------------

  /** The keys at the given old indices. */
  function Pick<T>(xs: seq<T>, kept: seq<nat>): (r: seq<T>)
    requires Below(kept, |xs|)
    ensures |r| == |kept| && forall j :: 0 <= j < |kept| ==> r[j] == xs[kept[j]]
  {
    seq(|kept|, j requires 0 <= j < |kept| => xs[kept[j]])
  }

  /** The entries of the kept indices, at their new positions. */
  function Reindex<T>(m: map<int, T>, kept: seq<nat>): map<int, T> {
    map j | 0 <= j < |kept| && kept[j] in m :: m[kept[j]]
  }

  /** Copy the entry at `i`, if there is one, to position `to`. */
  function Carry<T>(into: map<int, T>, to: int, from: map<int, T>, i: int): map<int, T> {
    if i in from then into[to := from[i]] else into
  }

  /** Entries other than "enabled". */
  function Disabled(status: map<int, int>): map<int, int> {
    map i | i in status && status[i] != ENABLED :: status[i]
  }

  /** Entries of keys that are not enabled. */
  function OfDisabled<T>(m: map<int, T>, status: map<int, int>): map<int, T> {
    map i | i in m && StatusAt(status, i) != ENABLED :: m[i]
  }

  ghost predicate Below(kept: seq<nat>, n: nat) {
    forall j :: 0 <= j < |kept| ==> kept[j] < n
  }

  /** All indices below `n` but `i`. */
  function AllBut(n: nat, i: int): (kept: seq<nat>)
    ensures Below(kept, n)
  {
    if n == 0 then [] else if n - 1 == i then AllBut(n - 1, i) else AllBut(n - 1, i) + [n - 1]
  }

  lemma {:induction false} AllButShape(n: nat, i: int)
    ensures var kept := AllBut(n, i);
            if 0 <= i < n
            then |kept| == n - 1 && forall j :: 0 <= j < |kept| ==> kept[j] == if j < i then j else j + 1
            else |kept| == n && forall j :: 0 <= j < n ==> kept[j] == j
  {
    if n > 0 {
      AllButShape(n - 1, i);
    }
  }

  /** The indices below `n` whose key is not automatically disabled. */
  function NotAuto(status: map<int, int>, n: nat): (kept: seq<nat>)
    ensures Below(kept, n) && |kept| <= n
  {
    if n == 0 then []
    else if StatusAt(status, n - 1) == AUTO_DISABLED then NotAuto(status, n - 1)
    else NotAuto(status, n - 1) + [n - 1]
  }

  lemma NotAutoNext(status: map<int, int>, n: nat)
    ensures NotAuto(status, n + 1) ==
        if StatusAt(status, n) == AUTO_DISABLED then NotAuto(status, n) else NotAuto(status, n) + [n]
  {
  }

  // ---------------------------------------------------------------------------
  // The row after each action
  // ---------------------------------------------------------------------------

  function DisableKeyRow(row: Row, i: int, parse: Parser): Row {
    Save(row.(status := row.status[i := MANUALLY_DISABLED]), row.key, parse)
  }

  function EnableKeyRow(row: Row, i: int, parse: Parser): Row {
    Save(row.(status := row.status - {i}, time := row.time - {i}, reason := row.reason - {i}), row.key, parse)
  }

  function EnableAllRow(row: Row, parse: Parser): Row {
    Save(row.(status := map[], time := map[], reason := map[]), row.key, parse)
  }

  function DisabledRow(row: Row): Row {
    row.(status := map i | i in row.status.Keys + (set j | 0 <= j < row.size && StatusAt(row.status, j) == ENABLED) ::
                     if 0 <= i < row.size && StatusAt(row.status, i) == ENABLED then MANUALLY_DISABLED
                         else row.status[i])
  }

  /** How many of the first `n` keys are enabled. */
  function EnabledCount(status: map<int, int>, n: int): nat
    decreases n
  {
    if n <= 0 then 0 else EnabledCount(status, n - 1) + if StatusAt(status, n - 1) == ENABLED then 1 else 0
  }

  lemma {:induction false} EnabledCountIff(status: map<int, int>, n: int)
    ensures EnabledCount(status, n) > 0 <==> exists i :: 0 <= i < n && StatusAt(status, i) == ENABLED
    decreases n
  {
    if n > 0 {
      EnabledCountIff(status, n - 1);
    }
  }

  /** It is the number of enabled indices. */
  lemma {:induction false} EnabledCountIs(status: map<int, int>, n: int)
    ensures EnabledCount(status, n) == |set i | 0 <= i < n && StatusAt(status, i) == ENABLED|
    decreases n
  {
    var now := set i | 0 <= i < n && StatusAt(status, i) == ENABLED;
    if n <= 0 {
      assert now == {};
    } else {
      EnabledCountIs(status, n - 1);
      var before := set i | 0 <= i < n - 1 && StatusAt(status, i) == ENABLED;
      assert now == if StatusAt(status, n - 1) == ENABLED then before + {n - 1} else before;
    }
  }

  function DisableAllRow(row: Row, parse: Parser): Row {
    Save(DisabledRow(row), row.key, parse)
  }

  function DeleteKeyRow(row: Row, i: int, parse: Parser): Row {
    var keys := GetKeys(row.key, parse);
    var kept := AllBut(|keys|, i);
    Save(row.(status := Reindex(Disabled(row.status), kept), time := Reindex(row.time, kept),
        reason := Reindex(row.reason, kept)),
         Join(Pick(keys, kept), '\n'), parse)
  }

  function DeleteDisabledRow(row: Row, parse: Parser): Row {
    var keys := GetKeys(row.key, parse);
    var kept := NotAuto(row.status, |keys|);
    Save(row.(status := Reindex(Disabled(row.status), kept),
              time := Reindex(OfDisabled(row.time, row.status), kept),
              reason := Reindex(OfDisabled(row.reason, row.status), kept)),
         Join(Pick(keys, kept), '\n'), parse)
  }

  /** The first position of a key, or -1. */
  function FirstIndex(keys: seq<string>, key: string): (i: int)
    ensures -1 <= i < |keys|
    ensures i >= 0 ==> keys[i] == key && forall j :: 0 <= j < i ==> keys[j] != key
    ensures i < 0 ==> key !in keys
  {
    if keys == [] then -1
    else if keys[0] == key then 0
    else
      var i := FirstIndex(keys[1..], key);
      if i < 0 then -1 else i + 1
  }

  predicate HasEnabled(n: nat, status: map<int, int>) {
    exists i :: 0 <= i < n && StatusAt(status, i) == ENABLED
  }

  /** The entries of key `i` after a report. */
  function ReportedRow(row: Row, i: int, status: int, reason: string, now: int): Row {
    if status == ENABLED then row.(status := row.status - {i})
    else row.(status := row.status[i := status], time := row.time[i := now], reason := row.reason[i := reason])
  }

  /** What the relay reports about a key in use: `handlerMultiKeyUpdate`. */
  function ReportRow(row: Row, usingKey: string, status: int, reason: string, now: int, parse: Parser): Row {
    var keys := GetKeys(row.key, parse);
    var i := FirstIndex(keys, usingKey);
    if i < 0 then
      if |keys| > 0 && usingKey != "" then row else row.(channelStatus := status)
    else
      var row1 := ReportedRow(row, i, status, reason, now);
      if !HasEnabled(|keys|, row1.status) then row1.(channelStatus := AUTO_DISABLED)
      else if status == ENABLED then row1.(channelStatus := ENABLED)
      else row1
  }

  // ---------------------------------------------------------------------------
  // The handlers
  // ---------------------------------------------------------------------------

  class Channel {
    var key: string
    var size: int
    var status: map<int, int>
    var time: map<int, int>
    var reason: map<int, string>
    var channelStatus: int
    const parse: Parser

    constructor (row: Row, parse: Parser)
      ensures View() == row && this.parse == parse
    {
      key, size, status, time, reason := row.key, row.size, row.status, row.time, row.reason;
      channelStatus := row.channelStatus;
      this.parse := parse;
    }

    function View(): Row
      reads this
    {
      Row(key, size, status, time, reason, channelStatus)
    }

    /** `Channel.Update`. */
    method Update(newKey: string)
      modifies this
      ensures View() == Save(old(View()), newKey, parse)
    {
      key := if newKey != "" then newKey else key;
      size := |CountedKeys(key, parse)|;
      status := Prune(status, size);
    }

    method DisableKey(index: Option<int>) returns (ok: bool)
      modifies this
      ensures ok <==> index.Some? && 0 <= index.value < old(size)
      ensures View() == if ok then DisableKeyRow(old(View()), index.value, parse)
                        else old(View())
    {
      if index.None? || index.value < 0 || index.value >= size {
        return false;
      }
      status := status[index.value := MANUALLY_DISABLED];
      Update(key);
      return true;
    }

    method EnableKey(index: Option<int>) returns (ok: bool)
      modifies this
      ensures ok <==> index.Some? && 0 <= index.value < old(size)
      ensures View() == if ok then EnableKeyRow(old(View()), index.value, parse)
                        else old(View())
    {
      if index.None? || index.value < 0 || index.value >= size {
        return false;
      }
      status := status - {index.value};
      time := time - {index.value};
      reason := reason - {index.value};
      Update(key);
      return true;
    }

    method EnableAll() returns (count: nat)
      modifies this
      ensures count == |old(status)|
      ensures View() == EnableAllRow(old(View()), parse)
    {
      count := |status|;
      status, time, reason := map[], map[], map[];
      Update(key);
    }

    /** Nothing is written when every key is disabled already. */
    method DisableAll() returns (count: nat)
      modifies this
      ensures count == EnabledCount(old(status), old(size))
      ensures View() == if count > 0 then DisableAllRow(old(View()), parse) else old(View())
    {
      count := 0;
      var next := status;
      var i := 0;
      while i < size
        invariant i >= 0 && (i <= size || i == 0)
        invariant count == EnabledCount(status, i)
        invariant forall j :: j in next <==> j in status || (0 <= j < i && StatusAt(status, j) == ENABLED)
        invariant forall j :: j in next ==>
                    next[j] == if 0 <= j < i && StatusAt(status, j) == ENABLED then MANUALLY_DISABLED else status[j]
      {
        if StatusAt(status, i) == ENABLED {
          next := next[i := MANUALLY_DISABLED];
          count := count + 1;
        }
        i := i + 1;
      }
      assert EnabledCount(status, size) == count;
      if count > 0 {
        assert next == DisabledRow(View()).status;
        status := next;
        Update(key);
      }
    }

    /** The last key cannot be deleted. */
    method DeleteKey(index: Option<int>) returns (ok: bool)
      modifies this
      ensures ok <==>
          index.Some? && 0 <= index.value < old(size) && |AllBut(|GetKeys(old(key), parse)|, index.value)| > 0
      ensures View() == if ok then DeleteKeyRow(old(View()), index.value, parse) else old(View())
    {
      if index.None? || index.value < 0 || index.value >= size {
        return false;
      }
      var keys := GetKeys(key, parse);
      var remaining, newStatus, newTime, newReason := SkipOne(keys, index.value, status, time, reason);
      hide AllBut, Reindex, Join, CountedKeys, GetKeys;
      if |remaining| == 0 {
        return false;
      }
      status, time, reason := newStatus, newTime, newReason;
      size := |remaining|;
      Update(Join(remaining, '\n'));
      return true;
    }

    /** Deletes the automatically disabled keys; without any, nothing is written. */
    method DeleteDisabledKeys() returns (deleted: nat)
      modifies this
      ensures deleted == |GetKeys(old(key), parse)| - |NotAuto(old(status), |GetKeys(old(key), parse)|)|
      ensures View() == if deleted > 0 then DeleteDisabledRow(old(View()), parse) else old(View())
    {
      var keys := GetKeys(key, parse);
      var copied, count := SkipAuto(keys, status, time, reason);
      hide NotAuto, Reindex, Join, CountedKeys, GetKeys;
      deleted := count;
      if deleted == 0 {
        return;
      }
      status, time, reason := copied.status, copied.time, copied.reason;
      size := |copied.keys|;
      Update(Join(copied.keys, '\n'));
    }

    /** `handlerMultiKeyUpdate`: disable or re-enable the key a request used. */
    method Report(usingKey: string, newStatus: int, why: string, now: int)
      modifies this
      ensures View() == ReportRow(old(View()), usingKey, newStatus, why, now, parse)
    {
      var keys := GetKeys(key, parse);
      if |keys| == 0 {
        channelStatus := newStatus;
        return;
      }
      var index := FindKey(keys, usingKey);
      if index < 0 {
        if usingKey == "" {
          channelStatus := newStatus;
        }
        return;
      }
      if newStatus == ENABLED {
        status := status - {index};
      } else {
        status := status[index := newStatus];
        reason := reason[index := why];
        time := time[index := now];
      }
      var enabled := AnyEnabled(|keys|, status);
      if !enabled {
        channelStatus := AUTO_DISABLED;
      } else if newStatus == ENABLED {
        channelStatus := ENABLED;
      }
    }
  }

  /** The loop of `Channel.Update` over the status entries. */
  method Prune(status: map<int, int>, size: int) returns (r: map<int, int>)
    ensures r == map i | i in status && i < size :: status[i]
  {
    r := status;
    var pending := status.Keys;
    while pending != {}
      invariant pending <= r.Keys <= status.Keys
      invariant forall i :: i in r ==> r[i] == status[i]
      invariant forall i :: i in status ==> (i in r <==> i < size || i in pending)
      decreases pending
    {
      HasElement(pending);
      var i :| i in pending;
      if i >= size {
        r := r - {i};
      }
      pending := pending - {i};
    }
    ghost var pruned := map i | i in status && i < size :: status[i];
    assert forall i :: i in r <==> i in pruned;
    assert r.Keys == pruned.Keys;
  }

  /** The loop of `delete_key`: copy every key but one, re-indexing its entries. */
  method SkipOne(keys: seq<string>, index: int, status: map<int, int>, time: map<int, int>, reason: map<int, string>)
    returns (remaining: seq<string>, newStatus: map<int, int>, newTime: map<int, int>, newReason: map<int, string>)
    ensures var kept := AllBut(|keys|, index);
            && remaining == Pick(keys, kept) && newStatus == Reindex(Disabled(status), kept)
            && newTime == Reindex(time, kept) && newReason == Reindex(reason, kept)
  {
    remaining, newStatus, newTime, newReason := [], map[], map[], map[];
    var newIndex := 0;
    var i := 0;
    ghost var kept: seq<nat> := [];
    ReindexEmpty(Disabled(status));
    ReindexEmpty(time);
    ReindexEmpty(reason);
    hide Reindex, Pick, Disabled, Carry;
    while i < |keys|
      invariant 0 <= i <= |keys| && newIndex == |kept| && kept == AllBut(i, index)
      invariant remaining == Pick(keys, kept)
      invariant newStatus == Reindex(Disabled(status), kept)
      invariant newTime == Reindex(time, kept) && newReason == Reindex(reason, kept)
    {
      if i != index {
        remaining := remaining + [keys[i]];
        PickNext(keys, kept, i);
        DisabledStatus(status, i, newStatus, newIndex);
        ReindexNext(Disabled(status), kept, i);
        ReindexNext(time, kept, i);
        ReindexNext(reason, kept, i);
        kept := kept + [i];
        if i in status && status[i] != ENABLED {
          newStatus := newStatus[newIndex := status[i]];
        }
        newTime, newReason := Carry(newTime, newIndex, time, i), Carry(newReason, newIndex, reason, i);
        newIndex := newIndex + 1;
      }
      i := i + 1;
    }
  }

  /** The keys and entries `delete_disabled_keys` has copied so far. */
  datatype Copied = Copied(keys: seq<string>, status: map<int, int>, time: map<int, int>, reason: map<int, string>)

  function CopiedAuto(keys: seq<string>, status: map<int, int>, time: map<int, int>, reason: map<int, string>,
      i: nat): Copied
    requires i <= |keys|
  {
    var kept := NotAuto(status, i);
    Copied(Pick(keys, kept), Reindex(Disabled(status), kept),
           Reindex(OfDisabled(time, status), kept), Reindex(OfDisabled(reason, status), kept))
  }

  /** Copy key `i` with status `s` to position `n`; an enabled key has no entries. */
  function CopyNext(c: Copied, n: nat, key: string, s: int, time: map<int, int>, reason: map<int, string>,
      i: int): Copied {
    if s == ENABLED then c.(keys := c.keys + [key])
    else Copied(c.keys + [key], c.status[n := s], Carry(c.time, n, time, i), Carry(c.reason, n, reason, i))
  }

  lemma CopiedNone(keys: seq<string>, status: map<int, int>, time: map<int, int>, reason: map<int, string>)
    ensures CopiedAuto(keys, status, time, reason, 0) == Copied([], map[], map[], map[])
  {
    ReindexEmpty(Disabled(status));
    ReindexEmpty(OfDisabled(time, status));
    ReindexEmpty(OfDisabled(reason, status));
  }

  /** What one round of the loop adds. */
  lemma CopiedNext(keys: seq<string>, status: map<int, int>, time: map<int, int>, reason: map<int, string>, i: nat)
    requires i < |keys|
    ensures var s, n := StatusAt(status, i), |NotAuto(status, i)|;
            && |NotAuto(status, i + 1)| == (if s == AUTO_DISABLED then n else n + 1)
            && CopiedAuto(keys, status, time, reason, i + 1)
               == if s == AUTO_DISABLED then CopiedAuto(keys, status, time, reason, i)
                  else CopyNext(CopiedAuto(keys, status, time, reason, i), n, keys[i], s, time, reason, i)
  {
    var kept := NotAuto(status, i);
    NotAutoNext(status, i);
    PickNext(keys, kept, i);
    ReindexNext(Disabled(status), kept, i);
    ReindexNext(OfDisabled(time, status), kept, i);
    ReindexNext(OfDisabled(reason, status), kept, i);
    DisabledStatus(status, i, Reindex(Disabled(status), kept), |kept|);
    DisabledEntries(status, time, i, Reindex(OfDisabled(time, status), kept), |kept|);
    DisabledEntries(status, reason, i, Reindex(OfDisabled(reason, status), kept), |kept|);
    hide Reindex, Pick, Disabled, OfDisabled, NotAuto, Carry, StatusAt;
  }

  /** The loop of `delete_disabled_keys`: copy every key that is not automatically disabled. */
  method SkipAuto(keys: seq<string>, status: map<int, int>, time: map<int, int>, reason: map<int, string>)
    returns (copied: Copied, deleted: nat)
    ensures copied == CopiedAuto(keys, status, time, reason, |keys|)
    ensures deleted == |keys| - |NotAuto(status, |keys|)|
  {
    copied, deleted := Copied([], map[], map[], map[]), 0;
    var newIndex := 0;
    var i := 0;
    CopiedNone(keys, status, time, reason);
    assert NotAuto(status, 0) == [];
    hide *;
    while i < |keys|
      invariant 0 <= i <= |keys| && newIndex == |NotAuto(status, i)| && deleted == i - newIndex
      invariant copied == CopiedAuto(keys, status, time, reason, i)
    {
      CopiedNext(keys, status, time, reason, i);
      var s := StatusAt(status, i);
      if s == AUTO_DISABLED {
        deleted := deleted + 1;
      } else {
        copied := CopyNext(copied, newIndex, keys[i], s, time, reason, i);
        newIndex := newIndex + 1;
      }
      i := i + 1;
    }
  }

  method FindKey(keys: seq<string>, key: string) returns (index: int)
    ensures index == FirstIndex(keys, key)
  {
    var i := 0;
    while i < |keys|
      invariant 0 <= i <= |keys| && key !in keys[..i]
    {
      if keys[i] == key {
        return i;
      }
      i := i + 1;
    }
    return -1;
  }

  method AnyEnabled(n: nat, status: map<int, int>) returns (found: bool)
    ensures found == HasEnabled(n, status)
  {
    var i := 0;
    while i < n
      invariant 0 <= i <= n && forall j :: 0 <= j < i ==> StatusAt(status, j) != ENABLED
    {
      if StatusAt(status, i) == ENABLED {
        return true;
      }
      i := i + 1;
    }
    return false;
  }

  lemma DisabledEntries<T>(status: map<int, int>, m: map<int, T>, i: int, into: map<int, T>, to: int)
    ensures Carry(into, to, OfDisabled(m, status), i) ==
        if StatusAt(status, i) != ENABLED then Carry(into, to, m, i) else into
  {
  }

  lemma DisabledStatus(status: map<int, int>, i: int, into: map<int, int>, to: int)
    ensures Carry(into, to, Disabled(status), i) ==
        if StatusAt(status, i) != ENABLED then into[to := StatusAt(status, i)] else into
  {
  }

  lemma ReindexEmpty<T>(m: map<int, T>)
    ensures Reindex(m, []) == map[]
  {
  }

  lemma ReindexNext<T>(m: map<int, T>, kept: seq<nat>, i: nat)
    ensures Reindex(m, kept + [i]) == Carry(Reindex(m, kept), |kept|, m, i)
  {
  }

  lemma PickNext<T>(xs: seq<T>, kept: seq<nat>, i: nat)
    requires i < |xs| && Below(kept, |xs|)
    ensures Pick(xs, kept + [i]) == Pick(xs, kept) + [xs[i]]
  {
  }

  lemma HasElement(s: set<int>)
    ensures s == {} || exists i :: i in s
  {
    if forall i :: i !in s {
      assert s == {};
    }
  }
}
