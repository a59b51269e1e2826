/**
 Retrying failed image archives: the validation of one task and the resumable
 bulk job (controller/async_image_admin.go).
 */
module BulkRetry {

  // ---------------------------------------------------------------------------
  // Validating one task
  // ---------------------------------------------------------------------------

  datatype Option<T> = None | Some(value: T)

  datatype Status = Uploading | Available | Failed | DeletePending | Deleted

  datatype Staging = StagingPending | StagingAvailable | StagingFailed | StagingDeletePending | StagingDeleted

  datatype Object = Object(index: int, status: Status, staging: Staging)

  /** A manifest item; `readable`: its staged file passes the integrity check. */
  datatype Item = Item(index: int, readable: bool)

  /** The reset takes effect, finds that somebody else has made it, or fails. */
  datatype Reset = Done | Taken | ResetFails

  /** What the validation reads about one task. */
  datatype Candidate = Candidate(
    found: bool,
    eligible: bool,           // succeeded, settled and failed to archive
    manifest: Option<seq<Item>>,
    objects: seq<Object>,
    reset: Reset)             // how resetting the task would end

  /** The manifest is there and has one row per item. */
  predicate Walkable(c: Candidate) {
    c.manifest.Some? && 0 < |c.manifest.value| == |c.objects|
  }

  /** The manifest item can be archived again from its staged file. */
  predicate ItemSound(c: Candidate, i: nat)
    requires Walkable(c) && i < |c.objects|
  {
    c.objects[i].index == c.manifest.value[i].index && c.manifest.value[i].readable
  }

  predicate Complete(c: Candidate) {
    Walkable(c) && forall i :: 0 <= i < |c.objects| ==> ItemSound(c, i)
  }

  datatype Verdict = Accept | Skip | Integrity

  function VerdictOf(c: Candidate): Verdict {
    if !c.found || !c.eligible then Skip
    else if !Complete(c) then Integrity
    else if c.reset == Done then Accept else Skip
  }

  /** After its validation the task is not failed any more. */
  predicate Leaves(c: Candidate) {
    c.found && c.eligible && Complete(c) && c.reset != ResetFails
  }

  function Usable(o: Object): Object {
    if o.staging == StagingFailed then o.(staging := StagingAvailable) else o
  }

  function Damaged(o: Object): Object {
    o.(status := Failed, staging := StagingFailed)
  }

  /** The first unsound item from `i` on, or the number of items. */
  function FirstUnsound(c: Candidate, i: nat): (k: nat)
    requires Walkable(c) && i <= |c.objects|
    ensures i <= k <= |c.objects|
    ensures forall j :: i <= j < k ==> ItemSound(c, j)
    ensures k < |c.objects| ==> !ItemSound(c, k)
    decreases |c.objects| - i
  {
    if i < |c.objects| && ItemSound(c, i) then FirstUnsound(c, i + 1) else i
  }

  /** What the walk makes of row `i`: usable before the first unsound item, damaged if that one cannot be read. */
  function MarkedAt(c: Candidate, i: nat): Object
    requires Walkable(c) && i < |c.objects|
  {
    var k := FirstUnsound(c, 0);
    if i < k then Usable(c.objects[i])
    else if i == k && c.objects[i].index == c.manifest.value[i].index then Damaged(c.objects[i])
    else c.objects[i]
  }

  /** The task after its validation: rows marked, and no longer failed if it was reset. */
  function Validated(c: Candidate): (after: Candidate)
    ensures |after.objects| == |c.objects|
  {
    if !c.found || !c.eligible || !Walkable(c) then c
    else c.(objects := seq(|c.objects|, i requires 0 <= i < |c.objects| => MarkedAt(c, i)),
            eligible := !Leaves(c))
  }

  /**
   Accepted exactly when the task is eligible, every staged file is sound and the reset
   takes effect; an integrity error exactly when an eligible task is not sound.
   */
  method ValidateAndReset(c: Candidate) returns (accepted: bool, integrityError: bool, after: Candidate)
    ensures accepted <==> c.found && c.eligible && Complete(c) && c.reset == Done
    ensures integrityError <==> c.found && c.eligible && !Complete(c)
    ensures after == Validated(c)
  {
    if !c.found || !c.eligible {
      return false, false, c;
    }
    if c.manifest.None? || |c.manifest.value| == 0 || |c.objects| != |c.manifest.value| {
      return false, true, c;
    }
    var manifest, objects := c.manifest.value, c.objects;
    var i := 0;
    while i < |manifest|
      invariant 0 <= i <= |manifest| == |objects|
      invariant FirstUnsound(c, 0) == FirstUnsound(c, i)
      invariant forall j :: 0 <= j < i ==> ItemSound(c, j) && objects[j] == Usable(c.objects[j])
      invariant forall j :: i <= j < |objects| ==> objects[j] == c.objects[j]
    {
      if objects[i].index != manifest[i].index {
        assert c.(objects := objects).objects == Validated(c).objects;
        return false, true, c.(objects := objects);
      }
      if !manifest[i].readable {
        objects := objects[i := Damaged(objects[i])];
        assert c.(objects := objects).objects == Validated(c).objects;
        return false, true, c.(objects := objects);
      }
      if objects[i].staging == StagingFailed {
        objects := objects[i := objects[i].(staging := StagingAvailable)];
      }
      i := i + 1;
    }
    assert c.(objects := objects).objects == Validated(c).objects;
    accepted := c.reset == Done;
    return accepted, false, c.(objects := objects, eligible := c.reset == ResetFails);
  }

  /** Item `i` of the manifest has its row and a readable file. */
  ghost predicate Good(c: Candidate, i: nat) {
    && c.manifest.Some? && i < |c.manifest.value| && i < |c.objects|
    && c.objects[i].index == c.manifest.value[i].index && c.manifest.value[i].readable
  }

  /** There is a manifest with items, a row for each of them and no other, and every item is good. */
  ghost predicate Archivable(c: Candidate) {
    && c.manifest.Some? && |c.manifest.value| > 0 && |c.objects| == |c.manifest.value|
    && forall i :: 0 <= i < |c.manifest.value| ==> Good(c, i)
  }

  /** What the verdict on a task means, and whether it stays failed. */
  lemma VerdictMeans(c: Candidate)
    ensures VerdictOf(c) == Accept <==> c.found && c.eligible && Archivable(c) && c.reset == Done
    ensures VerdictOf(c) == Integrity <==> c.found && c.eligible && !Archivable(c)
    ensures Validated(c).eligible <==> c.eligible && !(c.found && Archivable(c) && c.reset != ResetFails)
    ensures Validated(c) == c.(objects := Validated(c).objects, eligible := Validated(c).eligible)
  {
    if Walkable(c) {
      assert forall i :: 0 <= i < |c.objects| ==> (ItemSound(c, i) <==> Good(c, i));
    }
  }

  /**
   The marks on the rows: the walk reaches a row when all items before it are good. A file that
   reads makes a failed staging available again, one that does not fails the row, and a row
   that does not match its item stops the walk unmarked.
   */
  lemma MarksMean(c: Candidate, i: nat)
    requires i < |c.objects|
    ensures var reached := c.found && c.eligible && c.manifest.Some? && |c.objects| == |c.manifest.value|
                           && forall j :: 0 <= j < i ==> Good(c, j);
            var before, after := c.objects[i], Validated(c).objects[i];
            if reached && Good(c, i) && before.staging == StagingFailed
            then after == Object(before.index, before.status, StagingAvailable)
            else if reached && before.index == c.manifest.value[i].index && !c.manifest.value[i].readable
            then after == Object(before.index, Failed, StagingFailed)
            else after == before
  {
    if Walkable(c) {
      var k := FirstUnsound(c, 0);
      assert forall j :: 0 <= j < |c.objects| ==> (ItemSound(c, j) <==> Good(c, j));
      assert i <= k <==> forall j :: 0 <= j < i ==> Good(c, j);
      hide FirstUnsound;
    }
  }

  /** The marks do not change what is sound. */
  lemma MarksKeepSound(c: Candidate)
    requires Walkable(c)
    ensures Walkable(Validated(c)) && (Complete(Validated(c)) <==> Complete(c))
    ensures FirstUnsound(Validated(c), 0) == FirstUnsound(c, 0)
  {
    var after := Validated(c);
    assert forall i :: 0 <= i < |c.objects| ==> after.objects[i].index == c.objects[i].index;
    assert forall i :: 0 <= i < |c.objects| ==> (ItemSound(after, i) <==> ItemSound(c, i));
    hide Validated;
    assert FirstUnsound(after, 0) <= FirstUnsound(c, 0) <= FirstUnsound(after, 0);
  }

  /** Validating a task again finds what the first validation found; one that was reset is not failed any more. */
  lemma ValidatedAgain(c: Candidate)
    ensures VerdictOf(Validated(c)) == if Leaves(c) then Skip else VerdictOf(c)
    ensures Validated(Validated(c)) == Validated(c)
    ensures Validated(c).eligible <==> c.eligible && !Leaves(c)
  {
    var after := Validated(c);
    if Walkable(c) {
      MarksKeepSound(c);
      if after.found && after.eligible {
        var again := Validated(after);
        forall i | 0 <= i < |c.objects|
          ensures again.objects[i] == after.objects[i]
        {
          assert after.objects[i] == MarkedAt(c, i);
          hide FirstUnsound, Complete;
        }
        assert again.objects == after.objects;
      }
    }
  }

  // ---------------------------------------------------------------------------
  // The bulk job
  // ---------------------------------------------------------------------------

  /** A task row; it is listed while it is eligible. */
  datatype Row = Row(id: int, task: Candidate)

  datatype State = State(cursor: int, accepted: nat, skipped: nat, integrityErrors: nat, progress: int)

  ghost predicate Sorted(rows: seq<Row>) {
    && (forall i :: 0 <= i < |rows| ==> rows[i].id > 0)
    && (forall i, j :: 0 <= i < j < |rows| ==> rows[i].id < rows[j].id)
  }

  predicate Wanted(row: Row, after: int, max: int) {
    row.task.eligible && after < row.id <= max
  }

  /** The failed rows with an id in `(after, max]`, in id order. */
  function FailedRows(rows: seq<Row>, after: int, max: int): seq<Row> {
    if rows == [] then []
    else
      var rest := FailedRows(rows[1..], after, max);
      if Wanted(rows[0], after, max) then [rows[0]] + rest else rest
  }

  function Handled(row: Row): Row {
    row.(task := Validated(row.task))
  }

  /** The table after every failed row with an id in `(after, upTo]` was validated. */
  function AfterHandling(rows: seq<Row>, after: int, upTo: int): (r: seq<Row>)
    ensures |r| == |rows|
    ensures forall i :: 0 <= i < |rows| ==> r[i] == if Wanted(rows[i], after, upTo) then Handled(rows[i]) else rows[i]
  {
    if rows == [] then []
    else [if Wanted(rows[0], after, upTo) then Handled(rows[0]) else rows[0]] + AfterHandling(rows[1..], after, upTo)
  }

  function Tally(rows: seq<Row>, verdict: Verdict): nat {
    if rows == [] then 0
    else Tally(rows[..|rows| - 1], verdict) + (if VerdictOf(rows[|rows| - 1].task) == verdict then 1 else 0)
  }

  lemma {:induction false} TallyCovers(rows: seq<Row>)
    ensures Tally(rows, Accept) + Tally(rows, Skip) + Tally(rows, Integrity) == |rows|
  {
    if rows != [] {
      TallyCovers(rows[..|rows| - 1]);
    }
  }

  lemma {:induction false} ListedRowsWanted(rows: seq<Row>, after: int, max: int, i: nat)
    requires i < |FailedRows(rows, after, max)|
    ensures var row := FailedRows(rows, after, max)[i]; Wanted(row, after, max) && row in rows
  {
    var rest := FailedRows(rows[1..], after, max);
    if Wanted(rows[0], after, max) {
      if i > 0 {
        ListedRowsWanted(rows[1..], after, max, i - 1);
      }
    } else {
      ListedRowsWanted(rows[1..], after, max, i);
    }
  }

  /** No failed row in the range is left out of the listing. */
  lemma {:induction false} WantedRowsListed(rows: seq<Row>, after: int, max: int, k: nat)
    requires k < |rows| && Wanted(rows[k], after, max)
    ensures rows[k] in FailedRows(rows, after, max)
  {
    if k > 0 {
      WantedRowsListed(rows[1..], after, max, k - 1);
      assert rows[k] == rows[1..][k - 1];
    }
  }

  lemma {:induction false} ListedRowsSorted(rows: seq<Row>, after: int, max: int)
    requires Sorted(rows)
    ensures Sorted(FailedRows(rows, after, max))
  {
    if rows != [] {
      ListedRowsSorted(rows[1..], after, max);
      var rest := FailedRows(rows[1..], after, max);
      forall i | 0 <= i < |rest|
        ensures rest[i].id > rows[0].id
      {
        ListedRowsWanted(rows[1..], after, max, i);
      }
    }
  }

  /** A table that differs only at ids up to the cursor lists the same rows after it. */
  lemma {:induction false} ListingIgnoresThePast(rows: seq<Row>, rows': seq<Row>, after: int, max: int)
    requires |rows| == |rows'|
    requires forall i :: 0 <= i < |rows| ==> rows'[i].id == rows[i].id && (rows[i].id > after ==> rows'[i] == rows[i])
    ensures FailedRows(rows', after, max) == FailedRows(rows, after, max)
  {
    if rows != [] {
      ListingIgnoresThePast(rows[1..], rows'[1..], after, max);
    }
  }

  /** Moving the cursor to the k-th listed row drops exactly the rows up to it. */
  lemma {:induction false} ListingResumes(rows: seq<Row>, after: int, max: int, k: nat)
    requires Sorted(rows) && k < |FailedRows(rows, after, max)|
    ensures var found := FailedRows(rows, after, max);
            FailedRows(rows, found[k].id, max) == found[k + 1..]
  {
    ListedRowsSorted(rows, after, max);
    var found := FailedRows(rows, after, max);
    var rest := FailedRows(rows[1..], after, max);
    if Wanted(rows[0], after, max) {
      assert found == [rows[0]] + rest;
      if k == 0 {
        ListingSameAbove(rows[1..], after, rows[0].id, max);
        assert found[1..] == rest;
      } else {
        ListingResumes(rows[1..], after, max, k - 1);
        assert found[k] == rest[k - 1] && found[k + 1..] == rest[k..];
        ListedRowsWanted(rows[1..], after, max, k - 1);
        assert !Wanted(rows[0], found[k].id, max);
      }
    } else {
      ListingResumes(rows[1..], after, max, k);
      ListedRowsWanted(rows[1..], after, max, k);
      assert !Wanted(rows[0], found[k].id, max);
    }
  }

  lemma {:induction false} ListingSameAbove(rows: seq<Row>, after: int, cursor: int, max: int)
    requires after <= cursor && forall i :: 0 <= i < |rows| ==> rows[i].id > cursor
    ensures FailedRows(rows, cursor, max) == FailedRows(rows, after, max)
  {
    if rows != [] {
      ListingSameAbove(rows[1..], after, cursor, max);
    }
  }

  const BATCH := 100

  class Database {
    var rows: seq<Row>

    constructor (rows: seq<Row>)
      ensures this.rows == rows
    {
      this.rows := rows;
    }

    /** `ListFailedAsyncImageTaskIDs`: at most one batch, smallest ids first. */
    method ListFailed(after: int, max: int) returns (batch: seq<Row>)
      ensures var all := FailedRows(rows, after, max);
              batch == if |all| <= BATCH then all else all[..BATCH]
    {
      batch := [];
      var i := 0;
      while i < |rows| && |batch| < BATCH
        invariant 0 <= i <= |rows| && |batch| <= BATCH
        invariant FailedRows(rows, after, max) == batch + FailedRows(rows[i..], after, max)
      {
        assert rows[i..][1..] == rows[i + 1..];
        if Wanted(rows[i], after, max) {
          batch := batch + [rows[i]];
        }
        i := i + 1;
      }
      assert i == |rows| ==> rows[i..] == [];
    }

    /** Validate one listed row and store the marks and the reset. */
    method Validate(id: int) returns (accepted: bool, integrityError: bool)
      requires Sorted(rows)
      requires exists i :: 0 <= i < |rows| && rows[i].id == id
      modifies this
      ensures |rows| == |old(rows)|
      ensures exists i :: 0 <= i < |rows| && old(rows)[i].id == id && rows == old(rows)[i := Handled(old(rows)[i])]
                          && accepted == (VerdictOf(old(rows)[i].task) == Accept)
                          && integrityError == (VerdictOf(old(rows)[i].task) == Integrity)
    {
      var i := 0;
      while rows[i].id != id
        invariant 0 <= i < |rows|
        invariant forall j :: 0 <= j < i ==> rows[j].id != id
        decreases |rows| - i
      {
        i := i + 1;
      }
      var task;
      accepted, integrityError, task := ValidateAndReset(rows[i].task);
      hide Validated, Complete;
      rows := rows[i := rows[i].(task := task)];
    }
  }

  // ---------------------------------------------------------------------------
  // One pass over the listing, whatever the batches
  // ---------------------------------------------------------------------------

  /** Where the cursor stands after the first `k` listed rows. */
  function CursorAt(listed: seq<Row>, start: int, k: nat): int
    requires k <= |listed|
  {
    if k == 0 then start else listed[k - 1].id
  }

  /** The counters after the first `k` listed rows; the progress is kept apart. */
  function Advance(start: State, listed: seq<Row>, k: nat): (state: State)
    requires k <= |listed|
    ensures state.cursor == CursorAt(listed, start.cursor, k)
  {
    var done := listed[..k];
    start.(cursor := CursorAt(listed, start.cursor, k),
           accepted := start.accepted + Tally(done, Accept),
           skipped := start.skipped + Tally(done, Skip) + Tally(done, Integrity),
           integrityErrors := start.integrityErrors + Tally(done, Integrity))
  }

  /** Every handled row is accepted or skipped, and those that fail the integrity check are among the skipped. */
  lemma CountersMean(start: State, listed: seq<Row>, k: nat)
    requires k <= |listed|
    ensures var state := Advance(start, listed, k);
            && state.accepted + state.skipped == start.accepted + start.skipped + k
            && 0 <= state.integrityErrors - start.integrityErrors <= state.skipped - start.skipped
            && state.progress == start.progress
  {
    TallyCovers(listed[..k]);
  }

  lemma TallyNext(listed: seq<Row>, k: nat, verdict: Verdict)
    requires k < |listed|
    ensures Tally(listed[..k + 1], verdict) ==
        Tally(listed[..k], verdict) + (if VerdictOf(listed[k].task) == verdict then 1 else 0)
  {
    assert listed[..k + 1][..k] == listed[..k];
  }

  lemma HandlingNothing(rows: seq<Row>, after: int)
    ensures AfterHandling(rows, after, after) == rows
  {
  }

  /** Between two neighbours of the listing there is no failed row. */
  lemma NoFailureBetween(rows: seq<Row>, start: int, max: int, k: nat, i: nat)
    requires Sorted(rows) && i < |rows|
    requires k < |FailedRows(rows, start, max)|
    requires var listed := FailedRows(rows, start, max);
             Wanted(rows[i], CursorAt(listed, start, k), listed[k].id)
    ensures rows[i].id == FailedRows(rows, start, max)[k].id
  {
    var listed := FailedRows(rows, start, max);
    ListedRowsSorted(rows, start, max);
    ListedRowsWanted(rows, start, max, k);
    if k > 0 {
      ListedRowsWanted(rows, start, max, k - 1);
    }
    WantedRowsListed(rows, start, max, i);
    var j :| 0 <= j < |listed| && listed[j] == rows[i];
  }

  /** When row `i` is the only failed one in `(cursor, upTo]`, handling it takes the table from one to the other. */
  lemma HandlingOneMore(rows: seq<Row>, start: int, cursor: int, upTo: int, i: nat)
    requires i < |rows| && start <= cursor < rows[i].id == upTo && rows[i].task.eligible
    requires forall j :: 0 <= j < |rows| && Wanted(rows[j], cursor, upTo) ==> j == i
    ensures var before := AfterHandling(rows, start, cursor);
            before[i] == rows[i] && AfterHandling(rows, start, upTo) == before[i := Handled(rows[i])]
  {
    var before, after := AfterHandling(rows, start, cursor), AfterHandling(rows, start, upTo);
    hide Handled, AfterHandling;
    forall j | 0 <= j < |rows|
      ensures after[j] == before[i := Handled(rows[i])][j]
    {
      assert Wanted(rows[j], start, upTo) <==> Wanted(rows[j], start, cursor) || Wanted(rows[j], cursor, upTo);
    }
  }

  /** Handling the next listed row completes the handling up to its id. */
  lemma HandlingNext(rows: seq<Row>, start: int, max: int, k: nat, i: nat)
    requires Sorted(rows) && i < |rows|
    requires k < |FailedRows(rows, start, max)|
    requires rows[i].id == FailedRows(rows, start, max)[k].id
    ensures var listed := FailedRows(rows, start, max);
            && rows[i] == listed[k]
            && AfterHandling(rows, start, CursorAt(listed, start, k))[i] == rows[i]
            && AfterHandling(rows, start, listed[k].id)
               == AfterHandling(rows, start, CursorAt(listed, start, k))[i := Handled(rows[i])]
  {
    hide FailedRows, Handled, AfterHandling;
    var listed := FailedRows(rows, start, max);
    var cursor := CursorAt(listed, start, k);
    ListedRowsSorted(rows, start, max);
    ListedRowsWanted(rows, start, max, k);
    assert start <= cursor < listed[k].id by {
      if k > 0 {
        ListedRowsWanted(rows, start, max, k - 1);
      }
    }
    forall j | 0 <= j < |rows| && Wanted(rows[j], cursor, listed[k].id)
      ensures j == i
    {
      NoFailureBetween(rows, start, max, k, j);
    }
    HandlingOneMore(rows, start, cursor, listed[k].id, i);
  }

  /** What is listed after `k` rows were handled is the rest of the first listing. */
  lemma ListingAfterHandling(rows: seq<Row>, start: int, max: int, k: nat)
    requires Sorted(rows) && k <= |FailedRows(rows, start, max)|
    ensures var listed := FailedRows(rows, start, max);
            var cursor := CursorAt(listed, start, k);
            && Sorted(AfterHandling(rows, start, cursor))
            && FailedRows(AfterHandling(rows, start, cursor), cursor, max) == listed[k..]
  {
    var listed := FailedRows(rows, start, max);
    var cursor := CursorAt(listed, start, k);
    ListingIgnoresThePast(rows, AfterHandling(rows, start, cursor), cursor, max);
    if k > 0 {
      ListingResumes(rows, start, max, k - 1);
    }
  }

  /** The percentage shown after a batch; ids and the maximum are positive. */
  function Percent(cursor: int, max: int): int {
    if max > 0 then cursor * 100 / max else 0
  }

  lemma PercentMonotone(a: int, b: int, max: int)
    requires 0 <= a <= b <= max && max > 0
    ensures 0 <= Percent(a, max) <= Percent(b, max) <= 100
  {
    var p, q := Percent(a, max), Percent(b, max);
    PercentBounds(a, max);
    PercentBounds(b, max);
    hide Percent;
    QuotientLe(0, p, max);
    QuotientLe(p, q, max);
    QuotientLe(q, 100, max);
  }

  lemma PercentBounds(cursor: int, max: int)
    requires max > 0
    ensures var p := Percent(cursor, max); p * max <= cursor * 100 < p * max + max
  {
  }

  lemma QuotientLe(q: int, r: int, d: int)
    requires d > 0 && q * d < r * d + d
    ensures q <= r
  {
    if q > r {
      LargerQuotient(q, r, d);
    }
  }

  lemma {:induction false} LargerQuotient(q: int, r: int, d: int)
    requires d > 0 && q > r
    ensures q * d >= r * d + d
    decreases q - r
  {
    assert q * d == (q - 1) * d + d;
    if q - 1 > r {
      LargerQuotient(q - 1, r, d);
    }
  }

  /**
   One run of the bulk job from a saved state. `patience` bounds the batches before
   the context is cancelled, and `listErrorAt` is the batch whose query fails.

   The run validates the first `k` rows of the listing it would have got from one
   unbounded query, in order, and counts exactly those. Without cancellation or
   error, `k` is the whole listing.
   */
  method Run(db: Database, max: int, start: State, patience: nat, listErrorAt: Option<nat>)
    returns (finished: bool, state: State, k: nat)
    requires Sorted(db.rows) && start.cursor >= 0
    modifies db
    ensures k <= |FailedRows(old(db.rows), start.cursor, max)|
    ensures var listed := FailedRows(old(db.rows), start.cursor, max);
            && state == Advance(start, listed, k).(progress := state.progress)
            && db.rows == AfterHandling(old(db.rows), start.cursor, state.cursor)
            && (finished && k < |listed| ==> k == BATCH * patience)
            && (!finished ==> listErrorAt.Some? && (k < |listed| ==> k == BATCH * listErrorAt.value))
    ensures state.progress == if finished then 100 else if k == 0 then start.progress else Percent(state.cursor, max)
  {
    ghost var rows0 := db.rows;
    ghost var listed := FailedRows(rows0, start.cursor, max);
    state, k := start, 0;
    var batches := 0;
    HandlingNothing(rows0, start.cursor);
    assert state == Advance(start, listed, 0);
    hide FailedRows, AfterHandling, Sorted, Tally, Percent, Advance;
    while state.cursor < max && batches < patience
      invariant k <= |listed| && batches <= patience
      invariant state == Advance(start, listed, k).(progress := state.progress)
      invariant db.rows == AfterHandling(rows0, start.cursor, state.cursor)
      invariant k < |listed| ==> k == BATCH * batches
      invariant state.progress == if k == 0 then start.progress else Percent(state.cursor, max)
      decreases |listed| - k, patience - batches
    {
      if listErrorAt == Some(batches) {
        return false, state, k;
      }
      var before := k;
      state, k := NextBatch(db, max, state, rows0, start, k);
      if k == before {
        break;
      }
      batches := batches + 1;
    }
    if k < |listed| {
      BatchAdvances(rows0, start.cursor, max, k, k + 1);
    }
    state := state.(progress := 100);
    return true, state, k;
  }

  /** One round of the outer loop: list, handle, show the percentage; nothing when no row is listed. */
  method NextBatch(db: Database, max: int, state0: State, ghost rows0: seq<Row>, ghost start: State, k0: nat)
    returns (state: State, k: nat)
    requires Sorted(rows0) && k0 <= |FailedRows(rows0, start.cursor, max)|
    requires state0 == Advance(start, FailedRows(rows0, start.cursor, max), k0).(progress := state0.progress)
    requires db.rows == AfterHandling(rows0, start.cursor, state0.cursor)
    modifies db
    ensures var listed := FailedRows(rows0, start.cursor, max);
            && k == (if k0 + BATCH <= |listed| then k0 + BATCH else |listed|)
            && state == Advance(start, listed, k).(progress :=
                if k == k0 then state0.progress else Percent(state.cursor, max))
            && db.rows == AfterHandling(rows0, start.cursor, state.cursor)
  {
    ghost var listed := FailedRows(rows0, start.cursor, max);
    ListingAfterHandling(rows0, start.cursor, max, k0);
    hide FailedRows, AfterHandling, Sorted, Tally, Percent, Advance;
    var batch := db.ListFailed(state0.cursor, max);
    if |batch| == 0 {
      return state0, k0;
    }
    assert batch == listed[k0..k0 + |batch|];
    state, k := HandleBatch(db, batch, state0, rows0, start, max, k0);
    state := state.(progress := Percent(state.cursor, max));
  }

  lemma AdvanceNext(start: State, listed: seq<Row>, k: nat)
    requires k < |listed|
    ensures Advance(start, listed, k + 1) ==
              var before, verdict := Advance(start, listed, k), VerdictOf(listed[k].task);
              before.(cursor := listed[k].id,
                      accepted := before.accepted + (if verdict == Accept then 1 else 0),
                      skipped := before.skipped + (if verdict != Accept then 1 else 0),
                      integrityErrors := before.integrityErrors + (if verdict == Integrity then 1 else 0))
  {
    TallyNext(listed, k, Accept);
    TallyNext(listed, k, Skip);
    TallyNext(listed, k, Integrity);
  }

  lemma SortedAfterHandling(rows: seq<Row>, after: int, upTo: int)
    requires Sorted(rows)
    ensures Sorted(AfterHandling(rows, after, upTo))
  {
  }

  /** The row that `Validate` finds is the listed one, as it was at the start. */
  lemma ListedRowFound(rows0: seq<Row>, start: int, max: int, k: nat, rows: seq<Row>)
    requires Sorted(rows0) && k < |FailedRows(rows0, start, max)|
    requires rows == AfterHandling(rows0, start, CursorAt(FailedRows(rows0, start, max), start, k))
    ensures var row := FailedRows(rows0, start, max)[k];
            && (exists i :: 0 <= i < |rows| && rows[i].id == row.id)
            && forall i :: 0 <= i < |rows| && rows[i].id == row.id ==>
                 rows[i] == row && rows[i := Handled(row)] == AfterHandling(rows0, start, row.id)
  {
    hide FailedRows, Sorted;
    var row := FailedRows(rows0, start, max)[k];
    ListedRowsWanted(rows0, start, max, k);
    var at :| 0 <= at < |rows0| && rows0[at] == row;
    assert rows[at].id == row.id;
    forall i | 0 <= i < |rows| && rows[i].id == row.id
      ensures rows[i] == row && rows[i := Handled(row)] == AfterHandling(rows0, start, row.id)
    {
      assert rows0[i].id == row.id;
      HandlingNext(rows0, start, max, k, i);
    }
  }

  /** The inner loop: every row of the batch is validated, counted and passed by the cursor. */
  method HandleBatch(db: Database, batch: seq<Row>, state0: State, ghost rows0: seq<Row>, ghost start: State,
                     ghost max: int, k0: nat)
    returns (state: State, k: nat)
    requires Sorted(rows0) && k0 + |batch| <= |FailedRows(rows0, start.cursor, max)|
    requires batch == FailedRows(rows0, start.cursor, max)[k0..k0 + |batch|]
    requires state0 == Advance(start, FailedRows(rows0, start.cursor, max), k0).(progress := state0.progress)
    requires db.rows == AfterHandling(rows0, start.cursor, state0.cursor)
    modifies db
    ensures k == k0 + |batch|
    ensures state == Advance(start, FailedRows(rows0, start.cursor, max), k).(progress := state0.progress)
    ensures db.rows == AfterHandling(rows0, start.cursor, state.cursor)
    ensures |batch| > 0 ==> state0.cursor < state.cursor <= max
  {
    hide FailedRows, AfterHandling, Tally, Sorted;
    ghost var listed := FailedRows(rows0, start.cursor, max);
    state, k := state0, k0;
    var j := 0;
    while j < |batch|
      invariant 0 <= j <= |batch| && k == k0 + j
      invariant state == Advance(start, listed, k).(progress := state0.progress)
      invariant db.rows == AfterHandling(rows0, start.cursor, state.cursor)
    {
      var row := batch[j];
      assert row == listed[k];
      SortedAfterHandling(rows0, start.cursor, state.cursor);
      ListedRowFound(rows0, start.cursor, max, k, db.rows);
      var accepted, integrityError := db.Validate(row.id);
      AdvanceNext(start, listed, k);
      if accepted {
        state := state.(accepted := state.accepted + 1);
      } else {
        state := state.(skipped := state.skipped + 1);
      }
      if integrityError {
        state := state.(integrityErrors := state.integrityErrors + 1);
      }
      state := state.(cursor := row.id);
      k := k + 1;
      j := j + 1;
    }
    if |batch| > 0 {
      BatchAdvances(rows0, start.cursor, max, k0, k);
    }
  }

  lemma BatchAdvances(rows: seq<Row>, start: int, max: int, k0: nat, k: nat)
    requires Sorted(rows) && k0 < k <= |FailedRows(rows, start, max)|
    ensures var listed := FailedRows(rows, start, max);
            CursorAt(listed, start, k0) < CursorAt(listed, start, k) <= max
  {
    ListedRowsSorted(rows, start, max);
    ListedRowsWanted(rows, start, max, k - 1);
  }

  // ---------------------------------------------------------------------------
  // Interrupted and resumed runs
  // ---------------------------------------------------------------------------

  lemma {:induction false} TallyConcat(a: seq<Row>, b: seq<Row>, verdict: Verdict)
    ensures Tally(a + b, verdict) == Tally(a, verdict) + Tally(b, verdict)
  {
    if b == [] {
      assert a + b == a;
    } else {
      TallyConcat(a, b[..|b| - 1], verdict);
      assert (a + b)[..|a + b| - 1] == a + b[..|b| - 1];
    }
  }

  lemma AdvanceComposes(start: State, listed: seq<Row>, k1: nat, k2: nat)
    requires k1 + k2 <= |listed|
    ensures Advance(Advance(start, listed, k1), listed[k1..], k2) == Advance(start, listed, k1 + k2)
  {
    hide Tally;
    var first, second := listed[..k1], listed[k1..k1 + k2];
    assert listed[k1..][..k2] == second && listed[..k1 + k2] == first + second;
    TallyConcat(first, second, Accept);
    TallyConcat(first, second, Skip);
    TallyConcat(first, second, Integrity);
  }

  /** A run stopped after `k1` rows and resumed from its saved state for `k2` more is one run of `k1 + k2` rows. */
  lemma ResumedRunIsOneRun(rows: seq<Row>, start: State, max: int, k1: nat, k2: nat)
    requires Sorted(rows) && k1 + k2 <= |FailedRows(rows, start.cursor, max)|
    ensures var listed := FailedRows(rows, start.cursor, max);
            var saved := Advance(start, listed, k1);
            var rows1 := AfterHandling(rows, start.cursor, saved.cursor);
            var listed1 := FailedRows(rows1, saved.cursor, max);
            && k2 <= |listed1|
            && Advance(saved, listed1, k2) == Advance(start, listed, k1 + k2)
            && AfterHandling(rows1, saved.cursor, Advance(saved, listed1, k2).cursor)
               == AfterHandling(rows, start.cursor, Advance(start, listed, k1 + k2).cursor)
  {
    hide Tally, FailedRows, AfterHandling, Sorted;
    var listed := FailedRows(rows, start.cursor, max);
    ListingAfterHandling(rows, start.cursor, max, k1);
    AdvanceComposes(start, listed, k1, k2);
    var c1, c2 := CursorAt(listed, start.cursor, k1), CursorAt(listed, start.cursor, k1 + k2);
    assert start.cursor <= c1 <= c2 by {
      if k1 > 0 {
        BatchAdvances(rows, start.cursor, max, 0, k1);
      }
      if k2 > 0 {
        BatchAdvances(rows, start.cursor, max, k1, k1 + k2);
      }
    }
    HandlingComposes(rows, start.cursor, c1, c1, c2);
  }

  lemma HandledAgain(row: Row)
    ensures Handled(Handled(row)) == Handled(row)
    ensures Handled(row).task.eligible <==> row.task.eligible && !Leaves(row.task)
    ensures VerdictOf(Handled(row).task) == if Leaves(row.task) then Skip else VerdictOf(row.task)
  {
    ValidatedAgain(row.task);
  }

  /** Handling a stretch again after a crash, from the older saved cursor, leaves the table as one run does. */
  lemma HandlingComposes(rows: seq<Row>, start: int, saved: int, reached: int, end: int)
    requires start <= saved <= reached <= end
    ensures AfterHandling(AfterHandling(rows, start, reached), saved, end) == AfterHandling(rows, start, end)
  {
    hide Handled;
    var once, twice := AfterHandling(rows, start, end), AfterHandling(AfterHandling(rows, start, reached), saved, end);
    forall i | 0 <= i < |rows|
      ensures twice[i] == once[i]
    {
      HandledAgain(rows[i]);
      assert Handled(rows[i]).id == rows[i].id by { HandledId(rows[i]); }
    }
  }

  lemma HandledId(row: Row)
    ensures Handled(row).id == row.id
  {
  }

  /** What a listing finds again of a row after the rows up to `upTo` were handled: one that was reset is gone. */
  function Again(row: Row, upTo: int): seq<Row> {
    if row.id > upTo then [row]
    else if Leaves(row.task) then []
    else [Handled(row)]
  }

  function Relisted(listed: seq<Row>, upTo: int): seq<Row> {
    if listed == [] then [] else Again(listed[0], upTo) + Relisted(listed[1..], upTo)
  }

  lemma {:induction false} ListingAfterCut(rows: seq<Row>, start: int, saved: int, reached: int, max: int)
    requires start <= saved
    ensures FailedRows(AfterHandling(rows, start, reached), saved, max) ==
        Relisted(FailedRows(rows, saved, max), reached)
  {
    if rows != [] {
      ListingAfterCut(rows[1..], start, saved, reached, max);
      HandledAgain(rows[0]);
      HandledId(rows[0]);
      assert AfterHandling(rows, start, reached)[1..] == AfterHandling(rows[1..], start, reached);
      var listed := FailedRows(rows, saved, max);
      if Wanted(rows[0], saved, max) {
        assert listed[1..] == FailedRows(rows[1..], saved, max);
      }
      hide Handled, VerdictOf;
    }
  }

  lemma {:induction false} RelistedConcat(a: seq<Row>, b: seq<Row>, upTo: int)
    ensures Relisted(a + b, upTo) == Relisted(a, upTo) + Relisted(b, upTo)
  {
    hide Again;
    if a == [] {
      assert a + b == b;
    } else {
      RelistedConcat(a[1..], b, upTo);
      assert (a + b)[1..] == a[1..] + b && (a + b)[0] == a[0];
      var x, y, z := Again(a[0], upTo), Relisted(a[1..], upTo), Relisted(b, upTo);
      assert x + (y + z) == (x + y) + z;
    }
  }

  lemma {:induction false} RelistedLater(listed: seq<Row>, upTo: int)
    requires forall i :: 0 <= i < |listed| ==> listed[i].id > upTo
    ensures Relisted(listed, upTo) == listed
  {
    if listed != [] {
      RelistedLater(listed[1..], upTo);
    }
  }

  /** The rows with a verdict that are not failed any more once they are handled. */
  function Leaving(rows: seq<Row>, verdict: Verdict): nat {
    if rows == [] then 0
    else Leaving(rows[1..], verdict) + if Leaves(rows[0].task) && VerdictOf(rows[0].task) == verdict then 1 else 0
  }

  /** All accepted rows leave and no damaged one does. */
  lemma {:induction false} LeavingIs(rows: seq<Row>)
    requires forall i :: 0 <= i < |rows| ==> rows[i].task.eligible
    ensures Leaving(rows, Accept) == Tally(rows, Accept) && Leaving(rows, Integrity) == 0
  {
    if rows != [] {
      LeavingIs(rows[1..]);
      assert rows == [rows[0]] + rows[1..];
      TallyConcat([rows[0]], rows[1..], Accept);
      TallyOne(rows[0], Accept);
      hide Tally, Complete;
    }
  }

  lemma {:induction false} RelistedTally(listed: seq<Row>, upTo: int, verdict: Verdict)
    requires forall i :: 0 <= i < |listed| ==> listed[i].id <= upTo
    ensures Tally(Relisted(listed, upTo), verdict) == Tally(listed, verdict) - Leaving(listed, verdict)
  {
    if listed != [] {
      var row, rest := listed[0], listed[1..];
      RelistedTally(rest, upTo, verdict);
      HandledAgain(row);
      assert listed == [row] + rest;
      TallyConcat([row], rest, verdict);
      TallyConcat(Again(row, upTo), Relisted(rest, upTo), verdict);
      TallyOne(row, verdict);
      TallyOne(Handled(row), verdict);
      assert Tally([], verdict) == 0;
      hide Handled, VerdictOf, Leaves, Tally;
    }
  }

  lemma TallyOne(row: Row, verdict: Verdict)
    ensures Tally([row], verdict) == if VerdictOf(row.task) == verdict then 1 else 0
  {
    assert [row][..0] == [];
  }

  lemma FromCursor(rows: seq<Row>, start: int, max: int, k: nat)
    requires Sorted(rows) && k <= |FailedRows(rows, start, max)|
    ensures var listed := FailedRows(rows, start, max); FailedRows(rows, CursorAt(listed, start, k), max) == listed[k..]
  {
    if k > 0 {
      ListingResumes(rows, start, max, k - 1);
    }
    hide FailedRows, Sorted;
  }

  lemma CutTally(rows: seq<Row>, start: int, max: int, saved: nat, reached: nat, verdict: Verdict)
    requires Sorted(rows) && saved <= reached <= |FailedRows(rows, start, max)|
    ensures var listed := FailedRows(rows, start, max);
            var c := CursorAt(listed, start, reached);
            Tally(listed[..saved], verdict) + Tally(Relisted(listed[saved..], c), verdict)
            == Tally(listed, verdict) - Leaving(listed[saved..reached], verdict)
  {
    var listed := FailedRows(rows, start, max);
    var c := CursorAt(listed, start, reached);
    var first, middle, last := listed[..saved], listed[saved..reached], listed[reached..];
    CutIds(rows, start, max, saved, reached);
    assert listed[saved..] == middle + last && listed == first + (middle + last);
    RelistedConcat(middle, last, c);
    RelistedTally(middle, c, verdict);
    RelistedLater(last, c);
    TallyConcat(Relisted(middle, c), last, verdict);
    TallyConcat(middle, last, verdict);
    TallyConcat(first, middle + last, verdict);
    hide *;
  }

  /** The cursor separates the rows reached from the later ones. */
  lemma CutIds(rows: seq<Row>, start: int, max: int, saved: nat, reached: nat)
    requires Sorted(rows) && saved <= reached <= |FailedRows(rows, start, max)|
    ensures var listed := FailedRows(rows, start, max);
            var c := CursorAt(listed, start, reached);
            && (forall i :: 0 <= i < reached - saved ==> listed[saved..reached][i].id <= c)
            && (forall i :: 0 <= i < |listed| - reached ==> listed[reached..][i].id > c)
  {
    var listed := FailedRows(rows, start, max);
    ListedRowsSorted(rows, start, max);
    forall i | 0 <= i < |listed|
      ensures listed[i].id > start
    {
      ListedRowsWanted(rows, start, max, i);
    }
    hide FailedRows;
  }

  /**
   A run saved after `saved` rows, cut off after `reached` and resumed to the end. The
   table is that of one run. The rows reset after the save are not listed again, so
   `accepted` and `skipped` are short by exactly those of them they would have counted.
   */
  lemma CutOffInsideBatch(rows: seq<Row>, start: State, max: int, saved: nat, reached: nat)
    requires Sorted(rows) && start.cursor <= max && saved <= reached <= |FailedRows(rows, start.cursor, max)|
    ensures var listed := FailedRows(rows, start.cursor, max);
            var state1 := Advance(start, listed, saved);
            var rows1 := AfterHandling(rows, start.cursor, CursorAt(listed, start.cursor, reached));
            var listed1 := FailedRows(rows1, state1.cursor, max);
            var whole, resumed := Advance(start, listed, |listed|), Advance(state1, listed1, |listed1|);
            var missed := listed[saved..reached];
            && AfterHandling(rows1, state1.cursor, max) == AfterHandling(rows, start.cursor, max)
            && resumed.accepted == whole.accepted - Tally(missed, Accept)
            && resumed.skipped == whole.skipped - Leaving(missed, Skip)
            && resumed.integrityErrors == whole.integrityErrors
  {
    hide Tally, FailedRows, AfterHandling, Sorted, Relisted, Leaving;
    var listed := FailedRows(rows, start.cursor, max);
    var c1, c2 := CursorAt(listed, start.cursor, saved), CursorAt(listed, start.cursor, reached);
    CursorsAscend(rows, start.cursor, max, saved, reached);
    HandlingComposes(rows, start.cursor, c1, c2, max);
    FromCursor(rows, start.cursor, max, saved);
    ListingAfterCut(rows, start.cursor, c1, c2, max);
    forall i | 0 <= i < |listed|
      ensures listed[i].task.eligible
    {
      ListedRowsWanted(rows, start.cursor, max, i);
    }
    LeavingIs(listed[saved..reached]);
    CutTally(rows, start.cursor, max, saved, reached, Accept);
    CutTally(rows, start.cursor, max, saved, reached, Skip);
    CutTally(rows, start.cursor, max, saved, reached, Integrity);
    assert listed[..|listed|] == listed;
    var listed1 := Relisted(listed[saved..], c2);
    assert listed1[..|listed1|] == listed1;
  }

  /** Nothing is missing from the counters exactly when no row was reset between the save and the cut-off. */
  lemma {:induction false} NothingMissedIff(missed: seq<Row>)
    requires forall i :: 0 <= i < |missed| ==> missed[i].task.eligible
    ensures Tally(missed, Accept) == 0 && Leaving(missed, Skip) == 0
       <==> forall i :: 0 <= i < |missed| ==> !Leaves(missed[i].task)
  {
    if missed != [] {
      NothingMissedIff(missed[1..]);
      assert missed == [missed[0]] + missed[1..];
      TallyConcat([missed[0]], missed[1..], Accept);
      TallyOne(missed[0], Accept);
      hide Tally, Complete;
      assert forall i :: 1 <= i < |missed| ==> missed[i] == missed[1..][i - 1];
    }
  }

  lemma CursorsAscend(rows: seq<Row>, start: int, max: int, k1: nat, k2: nat)
    requires Sorted(rows) && start <= max && k1 <= k2 <= |FailedRows(rows, start, max)|
    ensures var listed := FailedRows(rows, start, max);
            start <= CursorAt(listed, start, k1) <= CursorAt(listed, start, k2) <= max
  {
    if 0 < k1 {
      BatchAdvances(rows, start, max, 0, k1);
    }
    if k1 < k2 {
      BatchAdvances(rows, start, max, k1, k2);
    }
  }

  /** After a whole run, validation accepts nothing that is still failed in the range, and would change none of it. */
  lemma CompleteRunLeavesNothing(rows: seq<Row>, start: int, max: int, i: nat)
    requires i < |rows| && Wanted(AfterHandling(rows, start, max)[i], start, max)
    ensures var row := AfterHandling(rows, start, max)[i];
            VerdictOf(row.task) == VerdictOf(rows[i].task) != Accept && Handled(row) == row
  {
    HandledAgain(rows[i]);
    HandledId(rows[i]);
    hide Handled, VerdictOf;
  }
}
