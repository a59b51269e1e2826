/**
 Archiving the images of one finished task (controller/async_image_worker.go),
 while the cleanup job deletes expired objects (controller/async_image_admin.go).

 Every database statement and every object-store call is one step, except that the
 two marks of a failing validation are made together. An attempt can
 be cut off between any two steps, and the cleanup job and administrators who
 validate a failed task interleave freely with it. The lease gives the task at
 most one archiving worker at a time, and one cleanup job runs at a time.
 */
module ImageArchive {
  import opened Text

  datatype Option<T> = None | Some(value: T)

  datatype Item = Item(index: int, size: int, mime: string, sha256: string)

  /** What the object store reports; `modified` is `None` for the zero time. */
  datatype Head = Head(size: int, mime: string, modified: Option<int>, metadata: map<string, string>)

  datatype ObjectStatus = Uploading | Available | Failed | DeletePending | Deleted

  datatype Row = Row(index: int, status: ObjectStatus, uploadedAt: int, expiresAt: int)

  datatype Output = Archiving | Published | Expired | OutputFailed

  datatype Task = Task(
    output: Output,
    attempts: int,
    maxAttempts: int,
    deadline: int,
    nextAttemptAt: int,
    outputExpiresAt: int,
    listedAt: int,           // when the rows behind the published expiry were read
    retries: nat)            // retries scheduled since the last reset

  /** What stays fixed: identity, manifest and retention. */
  datatype Setup = Setup(businessId: string, taskId: string, items: seq<Item>, retention: int)

  /** Where the current attempt stands. `seen` is the row list read when it began. */
  datatype Worker =
    | Resting
    | Checking(i: nat, seen: seq<Row>)
    | Confirming(i: nat, seen: seq<Row>, modified: int)
    | ToUpload(i: nat, seen: seq<Row>, headFailed: bool)
    | ToPut(i: nat, seen: seq<Row>, headFailed: bool)
    | Stored(i: nat, seen: seq<Row>, uploadedAt: int)
    | ToPublish(expiresAt: int, listedAt: int)

  /** The batch of the cleanup job: objects it will delete, and those deleted whose rows are still to be marked. */
  datatype Cleaner = Cleaner(held: set<nat>, removed: set<nat>)

  const IDLE := Cleaner({}, {})

  datatype System = System(
    now: int,
    task: Task,
    rows: seq<Row>,
    store: map<nat, Head>,
    worker: Worker,
    cleaner: Cleaner)

  // ---------------------------------------------------------------------------
  // The head test
  // ---------------------------------------------------------------------------

  /** A missing entry reads as the empty text. */
  predicate Carries(head: Head, key: string, value: string) {
    (if key in head.metadata then head.metadata[key] else "") == value
  }

  /** The stored copy is the manifest item of this task. */
  predicate HeadMatches(c: Setup, head: Head, item: Item) {
    && head.size == item.size && head.mime == item.mime && head.modified.Some?
    && Carries(head, "sha256", item.sha256)
    && Carries(head, "business-id", c.businessId)
    && Carries(head, "resource-id", c.taskId)
    && Carries(head, "object-index", Itoa(item.index))
  }

  /** What an upload leaves in the store. */
  function PutHead(c: Setup, item: Item, modified: int): (head: Head)
    ensures HeadMatches(c, head, item) && head.modified == Some(modified)
  {
    Head(item.size, item.mime, Some(modified),
         map["sha256" := item.sha256, "business-id" := c.businessId,
             "resource-id" := c.taskId, "object-index" := Itoa(item.index)])
  }

  /** The copy one upload left is taken for another item exactly when content, business, task and index agree. */
  lemma CopyRecognisedIff(c: Setup, item: Item, c': Setup, item': Item, modified: int)
    ensures HeadMatches(c, PutHead(c', item', modified), item) <==>
              && item'.size == item.size && item'.mime == item.mime && item'.sha256 == item.sha256
              && c'.businessId == c.businessId && c'.taskId == c.taskId && item'.index == item.index
  {
    if Itoa(item'.index) == Itoa(item.index) {
      ItoaInjective(item'.index, item.index);
    }
  }

  predicate Intact(c: Setup, s: System, i: nat)
    requires i < |c.items|
  {
    i in s.store && HeadMatches(c, s.store[i], c.items[i])
  }

  /** The stored copy can be used as it is: it matches and is not expired. */
  predicate Reusable(c: Setup, s: System, i: nat)
    requires i < |c.items|
  {
    && Intact(c, s, i)
    && var modified := s.store[i].modified.value;
       modified > 0 && modified + c.retention > s.now
  }

  // ---------------------------------------------------------------------------
  // Retries
  // ---------------------------------------------------------------------------

  function Pow2(n: nat): (p: nat)
    ensures p >= 1
  {
    if n == 0 then 1 else 2 * Pow2(n - 1)
  }

  function Min(a: int, b: int): int {
    if a <= b then a else b
  }

  /** The delay before retry number `attempts`: 15 seconds doubled each time, at most 900. */
  function Backoff(attempts: int): int {
    if attempts <= 1 then 15 else Min(900, 15 * Pow2(attempts - 1))
  }

  lemma {:induction false} Pow2Monotone(a: nat, b: nat)
    requires a <= b
    ensures Pow2(a) <= Pow2(b)
    decreases b
  {
    if a < b {
      Pow2Monotone(a, b - 1);
    }
  }

  lemma BackoffMonotone(a: int, b: int)
    requires a <= b
    ensures 15 <= Backoff(a) <= Backoff(b) <= 900
  {
    if a > 1 {
      Pow2Monotone(a - 1, b - 1);
    }
  }

  /** The delays one by one. */
  lemma DelayTable(attempts: int)
    ensures Backoff(attempts) ==
              if attempts <= 1 then 15
              else if attempts == 2 then 30
              else if attempts == 3 then 60
              else if attempts == 4 then 120
              else if attempts == 5 then 240
              else if attempts == 6 then 480
              else 900
  {
    assert Pow2(1) == 2 && Pow2(2) == 4 && Pow2(3) == 8 && Pow2(4) == 16 && Pow2(5) == 32 && Pow2(6) == 64;
    if attempts >= 7 {
      Pow2Monotone(6, attempts - 1);
    }
  }

  /** The loop of the source, which caps the delay after each doubling. */
  method RetryDelay(attempts: int) returns (delay: int)
    ensures delay == Backoff(attempts)
  {
    delay := 15;
    var i := 1;
    while i < attempts && delay < 900
      invariant 1 <= i && (i <= attempts || i == 1)
      invariant delay == Min(900, 15 * Pow2(i - 1))
      decreases attempts - i
    {
      delay := delay * 2;
      if delay > 900 {
        delay := 900;
      }
      i := i + 1;
    }
    if i < attempts {
      Pow2Monotone(i - 1, attempts - 1);
    }
  }

  function FailTask(task: Task, attempts: int): Task {
    task.(output := OutputFailed, attempts := attempts)
  }

  /** Schedule another attempt, or give up when attempts or time have run out. */
  function RetryTask(task: Task, now: int): Task {
    var attempts := task.attempts + 1;
    if attempts >= task.maxAttempts || now >= task.deadline then FailTask(task, attempts)
    else task.(output := Archiving, attempts := attempts,
               nextAttemptAt := now + Backoff(attempts), retries := task.retries + 1)
  }

  // ---------------------------------------------------------------------------
  // Steps
  // ---------------------------------------------------------------------------

  datatype Action =
    | Tick(seconds: nat)
    | Start
    | Crash
    | Check(staged: bool, headOk: bool)
    | Confirm
    | MarkUploading
    | Put(ok: bool, modified: int)
    | MarkAvailable
    | FinalList
    | Publish
    | AdminReset(deadline: int)
    | ValidateFails(i: nat)
    | ClaimExpired(i: nat)
    | DeleteObject(i: nat, ok: bool)
    | MarkDeleted(i: nat)
    | StopCleanup

  function Stop(s: System): System {
    s.(worker := Resting)
  }

  /** A failure after which the attempt schedules a retry. */
  function Retry(s: System): System {
    s.(task := RetryTask(s.task, s.now), worker := Resting)
  }

  function Fail(s: System): System {
    s.(task := FailTask(s.task, s.task.attempts + 1), worker := Resting)
  }

  function SetStatus(s: System, i: nat, status: ObjectStatus): System
    requires i < |s.rows|
  {
    s.(rows := s.rows[i := s.rows[i].(status := status)])
  }

  function SetAvailable(c: Setup, s: System, i: nat, uploadedAt: int): System
    requires i < |s.rows|
  {
    s.(rows := s.rows[i := s.rows[i].(status := Available, uploadedAt := uploadedAt,
                                      expiresAt := uploadedAt + c.retention)])
  }

  predicate InRange(c: Setup, s: System, i: nat) {
    i < |c.items| && |s.rows| == |c.items|
  }

  /** Look at object `i`: its row, its staged file and its stored copy. */
  function CheckObject(c: Setup, s: System, i: nat, seen: seq<Row>, staged: bool, headOk: bool): System
    requires InRange(c, s, i) && |seen| == |s.rows|
  {
    if seen[i].status == DeletePending then Retry(s)
    else if c.items[i].index != seen[i].index then Fail(s)
    else if !staged then Fail(SetStatus(s, i, Failed))
    else if headOk && Reusable(c, s, i) then
      var modified := s.store[i].modified.value;
      if seen[i].status != Available || seen[i].expiresAt != modified + c.retention
      then s.(worker := Confirming(i, seen, modified))
      else s.(worker := Checking(i + 1, seen))
    else s.(worker := ToUpload(i, seen, !headOk))
  }

  predicate AllAvailable(rows: seq<Row>, now: int) {
    forall i :: 0 <= i < |rows| ==> rows[i].status == Available && rows[i].expiresAt > now
  }

  /** The running minimum of the final loop; 0 stands for none yet. */
  function MinExpiry(rows: seq<Row>): int {
    if rows == [] then 0
    else
      var before, e := MinExpiry(rows[..|rows| - 1]), rows[|rows| - 1].expiresAt;
      if before == 0 || e < before then e else before
  }

  function WorkerStep(c: Setup, s: System, act: Action): System {
    match (s.worker, act)
    case (Resting, Start) =>
      if s.task.output != Archiving || s.task.nextAttemptAt > s.now then s
      else if |c.items| == 0 || |s.rows| != |c.items| then Fail(s)
      else s.(worker := Checking(0, s.rows))
    case (Checking(i, seen), Check(staged, headOk)) =>
      if !InRange(c, s, i) || |seen| != |s.rows| then s else CheckObject(c, s, i, seen, staged, headOk)
    case (Confirming(i, seen, modified), Confirm) =>
      if !InRange(c, s, i) || |seen| != |s.rows| then s
      else if s.rows[i].status != seen[i].status then Stop(s)
      else SetAvailable(c, s, i, modified).(worker := Checking(i + 1, seen))
    case (ToUpload(i, seen, headFailed), MarkUploading) =>
      if !InRange(c, s, i) then s
      else if s.rows[i].status == DeletePending then Stop(s)
      else SetStatus(s, i, Uploading).(worker := ToPut(i, seen, headFailed))
    case (ToPut(i, seen, _), Put(ok, modified)) =>
      if !InRange(c, s, i) then s
      else if ok then s.(store := s.store[i := PutHead(c, c.items[i], modified)], worker := Stored(i, seen, s.now))
      else Retry(if s.rows[i].status == DeletePending then s else SetStatus(s, i, Failed))
    case (Stored(i, seen, uploadedAt), MarkAvailable) =>
      if !InRange(c, s, i) then s
      else if s.rows[i].status != Uploading then Stop(s)
      else SetAvailable(c, s, i, uploadedAt).(worker := Checking(i + 1, seen))
    case (Checking(i, _), FinalList) =>
      if i != |c.items| then s
      else if AllAvailable(s.rows, s.now) then s.(worker := ToPublish(MinExpiry(s.rows), s.now))
      else Retry(s)
    case (ToPublish(expiresAt, listedAt), Publish) =>
      s.(task := s.task.(output := Published, outputExpiresAt := expiresAt, listedAt := listedAt), worker := Resting)
    case _ => s
  }

  /** The job claims its batch row by row and then deletes one object after the other; it may stop anywhere. */
  function CleanerStep(s: System, act: Action): System {
    var held, removed := s.cleaner.held, s.cleaner.removed;
    match act
    case ClaimExpired(i) =>
      if i >= |s.rows| || i in removed then s
      else if s.rows[i].status == DeletePending then s.(cleaner := Cleaner(held + {i}, removed))
      else if s.rows[i].status == Available && 0 < s.rows[i].expiresAt <= s.now
      then SetStatus(s, i, DeletePending).(cleaner := Cleaner(held + {i}, removed))
      else s
    case DeleteObject(i, ok) =>
      if i !in held then s
      else if ok then s.(store := s.store - {i}, cleaner := Cleaner(held - {i}, removed + {i}))
      else s.(cleaner := Cleaner(held - {i}, removed))
    case MarkDeleted(i) =>
      if i !in removed then s
      else
        var s1 := if i < |s.rows| && s.rows[i].status == DeletePending then SetStatus(s, i, Deleted) else s;
        var expired := s.task.output == Published && 0 < s.task.outputExpiresAt <= s.now;
        s1.(task := if expired then s.task.(output := Expired) else s.task, cleaner := Cleaner(held, removed - {i}))
    case StopCleanup => s.(cleaner := IDLE)
    case _ => s
  }

  function Next(c: Setup, s: System, act: Action): System {
    match act
    case Tick(seconds) => s.(now := s.now + seconds)
    case Crash => Stop(s)
    case AdminReset(deadline) =>
      if s.task.output == OutputFailed
      then s.(task := s.task.(output := Archiving, attempts := 0, deadline := deadline,
                              nextAttemptAt := s.now, retries := 0))
      else s
    case ValidateFails(i) =>
      if i < |s.rows| then SetStatus(s, i, Failed).(task := s.task.(output := OutputFailed)) else s
    case ClaimExpired(_) => CleanerStep(s, act)
    case DeleteObject(_, _) => CleanerStep(s, act)
    case MarkDeleted(_) => CleanerStep(s, act)
    case StopCleanup => CleanerStep(s, act)
    case _ => WorkerStep(c, s, act)
  }

  function Run(c: Setup, s: System, acts: seq<Action>): System
    decreases |acts|
  {
    if acts == [] then s else Run(c, Next(c, s, acts[0]), acts[1..])
  }

  /** Row `i` belongs to the batch of the cleanup job. */
  predicate InCleanup(s: System, i: nat) {
    i in s.cleaner.held || i in s.cleaner.removed
  }

  /**
   Marking a damaged staged file does not look at the row's status, so the worker and
   a validating administrator could both overwrite a pending deletion. An administrator
   whose validation has become stale could also mark a row of a task that a worker is
   archiving again. A calm step does neither.
   */
  predicate Calm(s: System, act: Action) {
    && (act.Check? && !act.staged && s.worker.Checking? ==> !InCleanup(s, s.worker.i))
    && (act.ValidateFails? ==> !InCleanup(s, act.i) && s.worker.Resting?)
  }

  ghost predicate CalmRun(c: Setup, s: System, acts: seq<Action>)
    decreases |acts|
  {
    acts == [] || (Calm(s, acts[0]) && CalmRun(c, Next(c, s, acts[0]), acts[1..]))
  }

  // ---------------------------------------------------------------------------
  // The invariant
  // ---------------------------------------------------------------------------

  /** While an attempt has not reached a row, only the cleanup job can have moved it on. */
  ghost predicate Follows(seen: Row, row: Row) {
    || row.status == seen.status
    || (seen.status == Available && row.status in {DeletePending, Deleted})
    || (seen.status == DeletePending && row.status == Deleted)
  }

  ghost predicate Untouched(s: System, seen: seq<Row>, from: nat) {
    |seen| == |s.rows| && forall j :: from <= j < |seen| ==> Follows(seen[j], s.rows[j])
  }

  /** An upload is due: the head call failed or the stored copy cannot be used. */
  ghost predicate UploadDue(c: Setup, s: System, i: nat, headFailed: bool)
    requires i < |c.items|
  {
    headFailed || !Reusable(c, s, i)
  }

  /** `e` is the smallest expiry, and until `e` every object is available. */
  ghost predicate Covers(c: Setup, s: System, e: int) {
    && |s.rows| == |c.items| && 0 < e
    && (forall i :: 0 <= i < |s.rows| ==> e <= s.rows[i].expiresAt)
    && (exists i :: 0 <= i < |s.rows| && s.rows[i].expiresAt == e)
    && (s.now < e ==> forall i :: 0 <= i < |s.rows| ==> s.rows[i].status == Available)
  }

  ghost predicate WorkerInv(c: Setup, s: System) {
    && (!s.worker.Resting? ==> s.task.output == Archiving)
    && match s.worker
       case Resting => true
       case Checking(i, seen) => 0 < |c.items| && i <= |c.items| == |s.rows| && Untouched(s, seen, i)
       case Confirming(i, seen, modified) =>
         && i < |c.items| == |s.rows| && Untouched(s, seen, i)
         && seen[i].status != DeletePending
         && (s.rows[i].status == seen[i].status ==> Intact(c, s, i))
       case ToUpload(i, seen, headFailed) =>
         i < |c.items| == |s.rows| && Untouched(s, seen, i) && UploadDue(c, s, i, headFailed)
       case ToPut(i, seen, headFailed) =>
         && i < |c.items| == |s.rows| && Untouched(s, seen, i + 1)
         && s.rows[i].status == Uploading && UploadDue(c, s, i, headFailed)
       case Stored(i, seen, _) =>
         && i < |c.items| == |s.rows| && Untouched(s, seen, i + 1)
         && s.rows[i].status == Uploading && Intact(c, s, i)
       case ToPublish(e, listedAt) => Covers(c, s, e) && listedAt < e
  }

  ghost predicate CleanerInv(s: System) {
    && s.cleaner.held !! s.cleaner.removed
    && (forall i :: i in s.cleaner.held ==> i < |s.rows| && s.rows[i].status == DeletePending)
    && (forall i :: i in s.cleaner.removed ==> i < |s.rows| && s.rows[i].status == DeletePending)
  }

  /** An available row expires after the retention, and until then has its object in the store. */
  ghost predicate RowsInv(c: Setup, s: System) {
    && (|s.rows| == |c.items| ==>
          forall i :: 0 <= i < |s.rows| && s.rows[i].status == Available && s.rows[i].expiresAt > s.now ==>
            Intact(c, s, i))
    && forall i :: 0 <= i < |s.rows| && s.rows[i].status == Available ==>
         s.rows[i].expiresAt == s.rows[i].uploadedAt + c.retention
  }

  ghost predicate TaskInv(c: Setup, s: System) {
    && (s.task.output == Published ==> Covers(c, s, s.task.outputExpiresAt) && s.task.listedAt < s.task.outputExpiresAt)
    && s.task.retries <= (if s.task.maxAttempts >= 1 then s.task.maxAttempts - 1 else 0)
    && (s.task.output == Archiving ==> s.task.attempts == s.task.retries)
  }

  ghost predicate Inv(c: Setup, s: System) {
    s.now >= 0 && WorkerInv(c, s) && CleanerInv(s) && RowsInv(c, s) && TaskInv(c, s)
  }

  lemma {:induction false} MinExpiryIsMin(rows: seq<Row>)
    requires forall i :: 0 <= i < |rows| ==> rows[i].expiresAt > 0
    ensures rows == [] ==> MinExpiry(rows) == 0
    ensures rows != [] ==> MinExpiry(rows) > 0
    ensures forall i :: 0 <= i < |rows| ==> MinExpiry(rows) <= rows[i].expiresAt
    ensures rows != [] ==> exists i :: 0 <= i < |rows| && rows[i].expiresAt == MinExpiry(rows)
  {
    if rows != [] {
      var n := |rows| - 1;
      MinExpiryIsMin(rows[..n]);
      if MinExpiry(rows) == rows[n].expiresAt {
      } else {
        var i :| 0 <= i < n && rows[..n][i].expiresAt == MinExpiry(rows[..n]);
        assert rows[i].expiresAt == MinExpiry(rows);
      }
    }
  }

  lemma TickKeepsInv(c: Setup, s: System, seconds: nat)
    requires Inv(c, s)
    ensures Inv(c, s.(now := s.now + seconds))
  {
  }

  lemma EndedKeepsInv(c: Setup, s: System)
    requires Inv(c, s) && s.task.output == Archiving
    ensures Inv(c, Retry(s)) && Inv(c, Fail(s))
  {
    hide Covers, HeadMatches;
  }

  /** Marking the row of a damaged file and giving up. */
  lemma DamagedKeepsInv(c: Setup, s: System, i: nat)
    requires Inv(c, s) && s.task.output == Archiving && i < |s.rows| && !InCleanup(s, i)
    ensures Inv(c, Fail(SetStatus(s, i, Failed)))
  {
    hide Covers, HeadMatches;
  }

  /** Going on to the next object, or to confirming or uploading this one. */
  lemma LookKeepsInv(c: Setup, s: System, i: nat, seen: seq<Row>, headOk: bool)
    requires Inv(c, s) && s.worker == Checking(i, seen) && InRange(c, s, i) && |seen| == |s.rows|
    requires seen[i].status != DeletePending && c.items[i].index == seen[i].index
    ensures Inv(c, CheckObject(c, s, i, seen, true, headOk))
  {
    hide Covers, HeadMatches, TaskInv, CleanerInv, RetryTask;
    var s' := CheckObject(c, s, i, seen, true, headOk);
    assert TaskInv(c, s') by { SameTaskInv(c, s, s'); }
    assert CleanerInv(s') by { SameCleanerInv(s, s'); }
  }

  lemma SameTaskInv(c: Setup, s: System, s': System)
    requires TaskInv(c, s) && s'.task == s.task && s'.rows == s.rows && s'.now == s.now
    ensures TaskInv(c, s')
  {
  }

  lemma SameCleanerInv(s: System, s': System)
    requires CleanerInv(s) && s'.rows == s.rows && s'.cleaner == s.cleaner
    ensures CleanerInv(s')
  {
  }

  lemma CheckKeepsInv(c: Setup, s: System, staged: bool, headOk: bool)
    requires Inv(c, s) && Calm(s, Check(staged, headOk))
    ensures Inv(c, Next(c, s, Check(staged, headOk)))
  {
    if s.worker.Checking? && InRange(c, s, s.worker.i) && |s.worker.seen| == |s.rows| {
      var i, seen := s.worker.i, s.worker.seen;
      EndedKeepsInv(c, s);
      if !staged {
        DamagedKeepsInv(c, s, i);
      } else if seen[i].status != DeletePending && c.items[i].index == seen[i].index {
        LookKeepsInv(c, s, i, seen, headOk);
      }
    }
    hide Inv, Reusable, RetryTask;
  }

  lemma ConfirmKeepsInv(c: Setup, s: System)
    requires Inv(c, s)
    ensures Inv(c, Next(c, s, Confirm))
  {
    hide Covers, HeadMatches;
  }

  lemma MarkAvailableKeepsInv(c: Setup, s: System)
    requires Inv(c, s)
    ensures Inv(c, Next(c, s, MarkAvailable))
  {
    hide Covers, HeadMatches;
  }

  lemma MarkUploadingKeepsInv(c: Setup, s: System)
    requires Inv(c, s)
    ensures Inv(c, Next(c, s, MarkUploading))
  {
    hide Covers, HeadMatches;
  }

  lemma PutKeepsInv(c: Setup, s: System, ok: bool, modified: int)
    requires Inv(c, s)
    ensures Inv(c, Next(c, s, Put(ok, modified)))
  {
    hide Covers, HeadMatches, PutHead;
  }

  lemma ListedRowsCover(c: Setup, s: System)
    requires s.now >= 0 && |s.rows| == |c.items| > 0 && AllAvailable(s.rows, s.now)
    ensures var e := MinExpiry(s.rows); s.now < e && Covers(c, s.(worker := ToPublish(e, s.now)), e)
  {
    MinExpiryIsMin(s.rows);
    hide MinExpiry;
  }

  lemma FinalListKeepsInv(c: Setup, s: System)
    requires Inv(c, s)
    ensures Inv(c, Next(c, s, FinalList))
  {
    hide Covers, MinExpiry, HeadMatches, AllAvailable;
    if s.worker.Checking? && AllAvailable(s.rows, s.now) {
      ListedRowsCover(c, s);
    }
  }

  lemma PublishKeepsInv(c: Setup, s: System)
    requires Inv(c, s)
    ensures Inv(c, Next(c, s, Publish))
  {
    if s.worker.ToPublish? {
      CoversSurvives(c, s, Next(c, s, Publish), s.worker.expiresAt);
    }
    hide Covers, Intact;
  }

  lemma CoversSurvives(c: Setup, s: System, s': System, e: int)
    requires Covers(c, s, e) && s.now <= s'.now && |s'.rows| == |s.rows|
    requires forall i :: 0 <= i < |s.rows| ==> s'.rows[i].expiresAt == s.rows[i].expiresAt
    requires s'.now < e ==> forall i :: 0 <= i < |s.rows| ==> s'.rows[i].status == s.rows[i].status
    ensures Covers(c, s', e)
  {
    var i :| 0 <= i < |s.rows| && s.rows[i].expiresAt == e;
    assert s'.rows[i].expiresAt == e;
  }

  lemma CleanerKeepsCovers(c: Setup, s: System, act: Action, e: int)
    requires Covers(c, s, e) && CleanerInv(s) && CleanerAct(act)
    ensures Covers(c, CleanerStep(s, act), e)
  {
    CoversSurvives(c, s, CleanerStep(s, act), e);
  }

  /** The cleanup job only moves a row along Available, DeletePending, Deleted. */
  lemma CleanerKeepsUntouched(s: System, act: Action, seen: seq<Row>, from: nat)
    requires Untouched(s, seen, from) && CleanerInv(s) && CleanerAct(act)
    ensures Untouched(CleanerStep(s, act), seen, from)
  {
  }

  predicate CleanerAct(act: Action) {
    act.ClaimExpired? || act.DeleteObject? || act.MarkDeleted? || act.StopCleanup?
  }

  /** The cleanup job only ever removes an object whose row is marked for deletion. */
  lemma CleanerKeepsIntact(c: Setup, s: System, act: Action, i: nat)
    requires CleanerInv(s) && CleanerAct(act) && i < |c.items| == |s.rows|
    ensures var s' := CleanerStep(s, act);
            && (s'.rows[i].status == s.rows[i].status != DeletePending ==> Intact(c, s', i) == Intact(c, s, i))
            && (Reusable(c, s', i) ==> Reusable(c, s, i))
            && s'.rows[i].expiresAt == s.rows[i].expiresAt && s'.now == s.now
            && |s'.rows| == |s.rows| && s'.worker == s.worker
            && (s'.rows[i].status == Available || s'.rows[i].status == Uploading ==>
                s'.rows[i].status == s.rows[i].status)
            && (s.rows[i].status == Uploading ==> s'.rows[i].status == Uploading)
            && (s'.task.output == Archiving <==> s.task.output == Archiving)
  {
    hide HeadMatches;
  }

  lemma CleanerKeepsWorker(c: Setup, s: System, act: Action)
    requires Inv(c, s) && CleanerAct(act)
    ensures WorkerInv(c, CleanerStep(s, act))
  {
    var s' := CleanerStep(s, act);
    match s.worker
    case Resting =>
    case ToPublish(e, _) =>
      CleanerKeepsCovers(c, s, act, e);
      hide Covers;
    case Checking(i, seen) =>
      CleanerKeepsUntouched(s, act, seen, i);
      CleanerKeepsIntact(c, s, act, 0);
      hide CleanerStep, Untouched;
    case Confirming(i, seen, _) =>
      CleanerKeepsUntouched(s, act, seen, i);
      CleanerKeepsIntact(c, s, act, i);
      if s'.rows[i].status == seen[i].status {
        ConfirmingRowStays(s, act, i, seen);
      }
      hide CleanerStep, Untouched, Intact;
    case ToUpload(i, seen, _) =>
      CleanerKeepsUntouched(s, act, seen, i);
      CleanerKeepsIntact(c, s, act, i);
      hide CleanerStep, Untouched, Reusable;
    case ToPut(i, seen, _) =>
      CleanerKeepsUntouched(s, act, seen, i + 1);
      CleanerKeepsIntact(c, s, act, i);
      hide CleanerStep, Untouched, Reusable;
    case Stored(i, seen, _) =>
      CleanerKeepsUntouched(s, act, seen, i + 1);
      CleanerKeepsIntact(c, s, act, i);
      hide CleanerStep, Untouched, Intact;
  }

  /** A row cannot come back to the status it was listed with once the cleanup job moved it. */
  lemma ConfirmingRowStays(s: System, act: Action, i: nat, seen: seq<Row>)
    requires CleanerInv(s) && CleanerAct(act) && i < |s.rows| && Untouched(s, seen, i)
    requires seen[i].status != DeletePending
    requires |CleanerStep(s, act).rows| == |s.rows| && CleanerStep(s, act).rows[i].status == seen[i].status
    ensures s.rows[i].status == seen[i].status
  {
  }

  lemma CleanerKeepsRows(c: Setup, s: System, act: Action)
    requires CleanerInv(s) && RowsInv(c, s) && CleanerAct(act)
    ensures CleanerInv(CleanerStep(s, act)) && RowsInv(c, CleanerStep(s, act))
  {
    hide HeadMatches;
  }

  lemma CleanerKeepsTask(c: Setup, s: System, act: Action)
    requires CleanerInv(s) && TaskInv(c, s) && CleanerAct(act)
    ensures TaskInv(c, CleanerStep(s, act))
  {
    if s.task.output == Published {
      CleanerKeepsCovers(c, s, act, s.task.outputExpiresAt);
    }
    hide Covers;
  }

  lemma CleanerKeepsInv(c: Setup, s: System, act: Action)
    requires Inv(c, s) && CleanerAct(act)
    ensures Inv(c, Next(c, s, act))
  {
    CleanerKeepsWorker(c, s, act);
    CleanerKeepsRows(c, s, act);
    CleanerKeepsTask(c, s, act);
    hide WorkerInv, CleanerInv, RowsInv, TaskInv;
  }

  lemma OtherKeepsInv(c: Setup, s: System, act: Action)
    requires Inv(c, s) && (act.Start? || act.Crash? || act.AdminReset? || act.ValidateFails?) && Calm(s, act)
    ensures Inv(c, Next(c, s, act))
  {
    hide Covers, HeadMatches;
  }

  lemma NextKeepsInv(c: Setup, s: System, act: Action)
    requires Inv(c, s) && Calm(s, act)
    ensures Inv(c, Next(c, s, act))
  {
    hide Inv, Calm;
    match act
    case Tick(seconds) => TickKeepsInv(c, s, seconds);
    case Check(staged, headOk) => CheckKeepsInv(c, s, staged, headOk);
    case Confirm => ConfirmKeepsInv(c, s);
    case MarkAvailable => MarkAvailableKeepsInv(c, s);
    case MarkUploading => MarkUploadingKeepsInv(c, s);
    case Put(ok, modified) => PutKeepsInv(c, s, ok, modified);
    case FinalList => FinalListKeepsInv(c, s);
    case Publish => PublishKeepsInv(c, s);
    case ClaimExpired(_) => CleanerKeepsInv(c, s, act);
    case DeleteObject(_, _) => CleanerKeepsInv(c, s, act);
    case MarkDeleted(_) => CleanerKeepsInv(c, s, act);
    case StopCleanup => CleanerKeepsInv(c, s, act);
    case ValidateFails(_) => OtherKeepsInv(c, s, act);
    case Start => OtherKeepsInv(c, s, act);
    case Crash => OtherKeepsInv(c, s, act);
    case AdminReset(_) => OtherKeepsInv(c, s, act);
  }

  lemma {:induction false} RunKeepsInv(c: Setup, s: System, acts: seq<Action>)
    requires Inv(c, s) && CalmRun(c, s, acts)
    ensures Inv(c, Run(c, s, acts))
    decreases |acts|
  {
    if acts != [] {
      hide Inv, Next, Calm;
      NextKeepsInv(c, s, acts[0]);
      RunKeepsInv(c, Next(c, s, acts[0]), acts[1..]);
    }
  }

  // ---------------------------------------------------------------------------
  // What the protocol guarantees on every run
  // ---------------------------------------------------------------------------

  /** A task right after generation: every object row is waiting for its upload. */
  ghost predicate Fresh(c: Setup, s: System) {
    && s.now >= 0 && s.worker == Resting && s.cleaner == IDLE && s.store == map[]
    && s.task.output == Archiving && s.task.attempts == 0 && s.task.retries == 0
    && forall i :: 0 <= i < |s.rows| ==> s.rows[i].status == Uploading
  }

  ghost function Entry(head: Head, key: string): string {
    if key in head.metadata then head.metadata[key] else ""
  }

  /** The stored copy has the content and the identity the manifest promises. */
  ghost predicate Promised(c: Setup, head: Head, item: Item) {
    && head.size == item.size && head.mime == item.mime && head.modified.Some?
    && Entry(head, "sha256") == item.sha256 && Entry(head, "object-index") == Itoa(item.index)
    && Entry(head, "business-id") == c.businessId && Entry(head, "resource-id") == c.taskId
  }

  /** The task is published as promised. */
  ghost predicate PublishedWell(c: Setup, s: System) {
    && |s.rows| == |c.items|
    && s.task.listedAt < s.task.outputExpiresAt
    && (forall i :: 0 <= i < |s.rows| ==> s.task.outputExpiresAt <= s.rows[i].expiresAt)
    && (exists i :: 0 <= i < |s.rows| && s.rows[i].expiresAt == s.task.outputExpiresAt)
    && (s.now < s.task.outputExpiresAt ==>
          forall i :: 0 <= i < |s.rows| ==>
            && s.rows[i].status == Available && s.rows[i].expiresAt == s.rows[i].uploadedAt + c.retention
            && i in s.store && Promised(c, s.store[i], c.items[i]))
  }

  lemma IntactIsPromised(c: Setup, s: System, i: nat)
    requires i < |c.items| && Intact(c, s, i)
    ensures i in s.store && Promised(c, s.store[i], c.items[i])
  {
  }

  lemma InvPublishesWell(c: Setup, s: System)
    requires RowsInv(c, s) && TaskInv(c, s) && s.task.output == Published
    ensures PublishedWell(c, s)
  {
    hide Promised, HeadMatches;
    if s.now < s.task.outputExpiresAt {
      forall i | 0 <= i < |s.rows|
        ensures i in s.store && Promised(c, s.store[i], c.items[i])
      {
        assert s.rows[i].status == Available && s.rows[i].expiresAt > s.now;
        IntactIsPromised(c, s, i);
      }
    }
  }

  /**
   Until the published expiry, every object of a published task is available in
   its row and present in the store with the contents the manifest promises. The
   published expiry is the smallest expiry of the objects and none of them had
   expired when they were listed for publication.
   */
  lemma PublishedMeansPresent(c: Setup, s: System, acts: seq<Action>)
    requires Fresh(c, s) && CalmRun(c, s, acts)
    ensures Run(c, s, acts).task.output == Published ==> PublishedWell(c, Run(c, s, acts))
  {
    RunKeepsInv(c, s, acts);
    hide Run, CalmRun, Fresh, RowsInv, TaskInv, WorkerInv, CleanerInv, PublishedWell;
    if Run(c, s, acts).task.output == Published {
      InvPublishesWell(c, Run(c, s, acts));
    }
  }

  /** An upload never replaces a copy that could have been used, unless the store could not be asked. */
  lemma NoNeedlessUpload(c: Setup, s: System, acts: seq<Action>)
    requires Fresh(c, s) && CalmRun(c, s, acts) && Run(c, s, acts).worker.ToPut?
    ensures var s' := Run(c, s, acts);
            && s'.worker.i < |c.items|
            && (s'.worker.headFailed
                || s'.worker.i !in s'.store
                || var head := s'.store[s'.worker.i];
                   || !Promised(c, head, c.items[s'.worker.i])
                   || head.modified.value <= 0 || head.modified.value + c.retention <= s'.now)
  {
    RunKeepsInv(c, s, acts);
    hide Run, CalmRun, Fresh;
  }

  /** Between two resets at most `maxAttempts - 1` retries are ever scheduled. */
  lemma RetryBudget(c: Setup, s: System, acts: seq<Action>)
    requires Fresh(c, s) && CalmRun(c, s, acts)
    ensures var task := Run(c, s, acts).task;
            task.retries <= (if task.maxAttempts >= 1 then task.maxAttempts - 1 else 0)
  {
    RunKeepsInv(c, s, acts);
    hide Run, CalmRun, Fresh;
  }

  // ---------------------------------------------------------------------------
  // Attempts: when one is retried, when the task is given up, and how long it waits
  // ---------------------------------------------------------------------------

  /** With attempts and time left a retry waits 15 seconds, doubled for each attempt before, at most 900. */
  lemma RetryOutcome(task: Task, now: int)
    requires task.attempts >= 0
    ensures RetryTask(task, now) ==
              if task.attempts + 1 < task.maxAttempts && now < task.deadline
              then task.(output := Archiving, attempts := task.attempts + 1, retries := task.retries + 1,
                         nextAttemptAt := now + Min(900, 15 * Pow2(task.attempts)))
              else task.(output := OutputFailed, attempts := task.attempts + 1)
  {
  }

  /** The attempt fails in a way that another attempt may repair. */
  predicate Fails(c: Setup, s: System, act: Action) {
    || (s.worker.ToPut? && InRange(c, s, s.worker.i) && act.Put? && !act.ok)
    || (s.worker.Checking? && InRange(c, s, s.worker.i) && |s.worker.seen| == |s.rows| && act.Check?
        && s.worker.seen[s.worker.i].status == DeletePending)
    || (s.worker.Checking? && s.worker.i == |c.items| && act.FinalList?
        && exists i :: 0 <= i < |s.rows| && (s.rows[i].status != Available || s.rows[i].expiresAt <= s.now))
  }

  /** What no attempt can repair is found: no manifest, rows that do not match it, a damaged file. */
  predicate Hopeless(c: Setup, s: System, act: Action) {
    || (s.worker == Resting && act.Start? && s.task.output == Archiving && s.task.nextAttemptAt <= s.now
        && (|c.items| == 0 || |s.rows| != |c.items|))
    || (s.worker.Checking? && InRange(c, s, s.worker.i) && |s.worker.seen| == |s.rows| && act.Check?
        && s.worker.seen[s.worker.i].status != DeletePending
        && (!act.staged || c.items[s.worker.i].index != s.worker.seen[s.worker.i].index))
    || (act.ValidateFails? && act.i < |s.rows|)
  }

  predicate Exhausted(s: System) {
    s.task.attempts + 1 >= s.task.maxAttempts || s.now >= s.task.deadline
  }

  /** A retry is scheduled exactly for a repairable failure with attempts and time left. */
  lemma RetriedIff(c: Setup, s: System, act: Action)
    ensures Next(c, s, act).task.retries == s.task.retries + 1 <==> Fails(c, s, act) && !Exhausted(s)
    ensures Fails(c, s, act) ==> Next(c, s, act).worker == Resting
                                 && Next(c, s, act).task == RetryTask(s.task, s.now)
  {
    hide HeadMatches, PutHead, MinExpiry;
  }

  /** A task being archived is given up exactly when that is hopeless, or attempts or time have run out. */
  lemma GivenUpIff(c: Setup, s: System, act: Action)
    requires s.task.output == Archiving
    ensures Next(c, s, act).task.output == OutputFailed <==>
              Hopeless(c, s, act) || (Fails(c, s, act) && Exhausted(s))
  {
    hide HeadMatches, PutHead, MinExpiry;
  }

  /** The next attempt is not begun before `due`, and nobody has moved it. */
  ghost predicate Waiting(s: System, due: int) {
    s.now >= due || (s.worker == Resting && s.task.nextAttemptAt == due)
  }

  lemma NextKeepsWaiting(c: Setup, s: System, act: Action, due: int)
    requires Waiting(s, due) && !act.AdminReset?
    ensures Waiting(Next(c, s, act), due)
  {
    hide HeadMatches, PutHead, MinExpiry;
  }

  /** Without a reset, whatever happens after a retry was scheduled, no attempt runs before its delay is over. */
  lemma {:induction false} NoAttemptBeforeDue(c: Setup, s: System, acts: seq<Action>, due: int)
    requires Waiting(s, due) && forall i :: 0 <= i < |acts| ==> !acts[i].AdminReset?
    ensures Waiting(Run(c, s, acts), due)
    decreases |acts|
  {
    if acts != [] {
      hide Next, Waiting;
      assert !acts[0].AdminReset?;
      NextKeepsWaiting(c, s, acts[0], due);
      NoAttemptBeforeDue(c, Next(c, s, acts[0]), acts[1..], due);
    }
  }

  lemma AttemptsSpaced(c: Setup, s: System, failing: Action, acts: seq<Action>)
    requires s.task.attempts >= 0 && Fails(c, s, failing) && !Exhausted(s)
    requires forall i :: 0 <= i < |acts| ==> !acts[i].AdminReset?
    ensures var s' := Run(c, Next(c, s, failing), acts);
            s'.worker != Resting ==> s'.now >= s.now + Min(900, 15 * Pow2(s.task.attempts))
  {
    RetriedIff(c, s, failing);
    RetryOutcome(s.task, s.now);
    var due := s.now + Min(900, 15 * Pow2(s.task.attempts));
    assert Next(c, s, failing).task.nextAttemptAt == due;
    hide Next;
    NoAttemptBeforeDue(c, Next(c, s, failing), acts, due);
  }

  // ---------------------------------------------------------------------------
  // Every fresh task can be published
  // ---------------------------------------------------------------------------

  /** No file is found damaged. */
  predicate Undamaged(act: Action) {
    !(act.Check? && !act.staged) && !act.ValidateFails?
  }

  lemma {:induction false} UndamagedIsCalm(c: Setup, s: System, acts: seq<Action>)
    requires forall i :: 0 <= i < |acts| ==> Undamaged(acts[i])
    ensures CalmRun(c, s, acts)
    decreases |acts|
  {
    if acts != [] {
      hide Next;
      assert Undamaged(acts[0]);
      UndamagedIsCalm(c, Next(c, s, acts[0]), acts[1..]);
    }
  }

  /** The first `i` objects are uploaded and the others are still to come. */
  ghost predicate Uploaded(c: Setup, s: System, i: nat, seen: seq<Row>) {
    && s.worker == Checking(i, seen) && s.task.output == Archiving && |seen| == |s.rows| == |c.items| >= i
    && (forall j :: i <= j < |seen| ==> seen[j].status == Uploading && seen[j].index == c.items[j].index)
    && (forall j :: 0 <= j < i ==> s.rows[j].status == Available && s.rows[j].expiresAt == s.now + c.retention)
    && (forall j :: j in s.store ==> j < i)
    && (forall j :: i <= j < |s.rows| ==> s.rows[j].status == Uploading)
  }

  /** The steps that upload one object and mark it. */
  function UploadSteps(now: int): seq<Action> {
    [Check(true, true), MarkUploading, Put(true, now), MarkAvailable]
  }

  /** The state after those steps. */
  function AfterUpload(c: Setup, s: System, i: nat, seen: seq<Row>): System
    requires i < |s.rows| && i < |c.items|
  {
    SetAvailable(c, s, i, s.now).(store := s.store[i := PutHead(c, c.items[i], s.now)], worker := Checking(i + 1, seen))
  }

  lemma UploadReaches(c: Setup, s: System, i: nat, seen: seq<Row>)
    requires Uploaded(c, s, i, seen) && i < |c.items|
    ensures Run(c, s, UploadSteps(s.now)) == AfterUpload(c, s, i, seen)
  {
    hide HeadMatches, PutHead, Run;
    var acts := UploadSteps(s.now);
    var s1 := Next(c, s, acts[0]);
    assert s1 == s.(worker := ToUpload(i, seen, false));
    var s2 := Next(c, s1, acts[1]);
    assert s2 == SetStatus(s, i, Uploading).(worker := ToPut(i, seen, false));
    var s3 := Next(c, s2, acts[2]);
    assert s3 == s2.(store := s2.store[i := PutHead(c, c.items[i], s.now)], worker := Stored(i, seen, s.now));
    var s4 := Next(c, s3, acts[3]);
    assert s4 == SetAvailable(c, s3, i, s.now).(worker := Checking(i + 1, seen));
    RunFour(c, s, acts);
    hide Next, Uploaded;
    assert s4.rows == AfterUpload(c, s, i, seen).rows;
  }

  lemma UploadOne(c: Setup, s: System, i: nat, seen: seq<Row>)
    requires Uploaded(c, s, i, seen) && i < |c.items|
    ensures var s' := Run(c, s, UploadSteps(s.now)); Uploaded(c, s', i + 1, seen) && s'.now == s.now
  {
    UploadReaches(c, s, i, seen);
    hide PutHead, Run;
  }

  lemma RunFour(c: Setup, s: System, acts: seq<Action>)
    requires |acts| == 4
    ensures Run(c, s, acts) == Next(c, Next(c, Next(c, Next(c, s, acts[0]), acts[1]), acts[2]), acts[3])
  {
    hide Next;
    var s1 := Next(c, s, acts[0]);
    var s2 := Next(c, s1, acts[1]);
    var s3 := Next(c, s2, acts[2]);
    assert acts[1..][1..] == acts[2..] && acts[2..][1..] == acts[3..] && acts[3..][1..] == [];
    assert Run(c, s, acts) == Run(c, s1, acts[1..]);
    assert Run(c, s1, acts[1..]) == Run(c, s2, acts[2..]);
    assert Run(c, s2, acts[2..]) == Run(c, s3, acts[3..]);
    assert Run(c, s3, acts[3..]) == Run(c, Next(c, s3, acts[3]), []);
  }

  lemma {:induction false} UploadRest(c: Setup, s: System, i: nat, seen: seq<Row>) returns (acts: seq<Action>)
    requires Uploaded(c, s, i, seen)
    ensures Uploaded(c, Run(c, s, acts), |c.items|, seen) && forall k :: 0 <= k < |acts| ==> Undamaged(acts[k])
    decreases |c.items| - i
  {
    if i == |c.items| {
      acts := [];
    } else {
      UploadOne(c, s, i, seen);
      var first := UploadSteps(s.now);
      var rest := UploadRest(c, Run(c, s, first), i + 1, seen);
      hide Uploaded, Run, Next;
      RunConcat(c, s, first, rest);
      acts := first + rest;
    }
  }

  lemma PublishUploaded(c: Setup, s: System, seen: seq<Row>)
    requires Uploaded(c, s, |c.items|, seen) && c.retention > 0
    ensures Run(c, s, [FinalList, Publish]).task.output == Published
  {
    var s1 := Next(c, s, FinalList);
    assert AllAvailable(s.rows, s.now);
    assert s1.worker.ToPublish?;
    var s2 := Next(c, s1, Publish);
    assert s2.task.output == Published;
    hide Next, Uploaded;
    assert [FinalList, Publish][1..] == [Publish] && [Publish][1..] == [];
    assert Run(c, s2, []) == s2 && Run(c, s1, [Publish]) == s2;
  }

  /** Wait until the next attempt is due and begin it. */
  lemma Begin(c: Setup, s: System) returns (acts: seq<Action>)
    requires s.worker == Resting && s.task.output == Archiving && |s.rows| == |c.items| > 0
    ensures var wait := if s.task.nextAttemptAt > s.now then s.task.nextAttemptAt - s.now else 0;
            Run(c, s, acts) == s.(now := s.now + wait, worker := Checking(0, s.rows))
    ensures forall i :: 0 <= i < |acts| ==> Undamaged(acts[i]) && !acts[i].Put?
  {
    var wait := if s.task.nextAttemptAt > s.now then s.task.nextAttemptAt - s.now else 0;
    acts := [Tick(wait), Start];
    var s1 := Next(c, s, Tick(wait));
    var s2 := Next(c, s1, Start);
    assert s2 == s.(now := s.now + wait, worker := Checking(0, s.rows));
    assert acts[1..] == [Start] && [Start][1..] == [];
    assert Run(c, s2, []) == s2 && Run(c, s1, [Start]) == s2;
  }

  /** From every fresh task whose rows match its manifest there is a calm run that publishes it. */
  lemma FreshCanBePublished(c: Setup, s: System) returns (acts: seq<Action>)
    requires Fresh(c, s) && c.retention > 0 && |s.rows| == |c.items| > 0
    requires forall j :: 0 <= j < |s.rows| ==> s.rows[j].index == c.items[j].index
    ensures CalmRun(c, s, acts) && Run(c, s, acts).task.output == Published
  {
    var first := Begin(c, s);
    var s1 := Run(c, s, first);
    var middle := UploadRest(c, s1, 0, s.rows);
    PublishUploaded(c, Run(c, s1, middle), s.rows);
    hide Next, Uploaded, Run, Fresh;
    RunConcat(c, s1, middle, [FinalList, Publish]);
    RunConcat(c, s, first, middle + [FinalList, Publish]);
    acts := first + (middle + [FinalList, Publish]);
    UndamagedIsCalm(c, s, acts);
  }

  // ---------------------------------------------------------------------------
  // A good copy is used as it is
  // ---------------------------------------------------------------------------

  /** The store has a copy that the manifest promises and that is not expired. */
  ghost predicate GoodCopy(c: Setup, s: System, i: nat) {
    && i < |c.items| && i in s.store && Promised(c, s.store[i], c.items[i])
    && s.store[i].modified.value > 0 && s.now < s.store[i].modified.value + c.retention
  }

  /** The attempt looks at an object that is not in deletion, has its row and a readable file. */
  ghost predicate Looking(c: Setup, s: System) {
    && s.worker.Checking? && s.worker.i < |c.items| == |s.rows| == |s.worker.seen|
    && s.worker.seen[s.worker.i].status != DeletePending
    && s.worker.seen[s.worker.i].index == c.items[s.worker.i].index
  }

  /** The row already says what the store says about a good copy. */
  ghost predicate UpToDate(c: Setup, row: Row, modified: int) {
    row.status == Available && row.expiresAt == modified + c.retention
  }

  /** It is uploaded exactly when the store could not be asked or has no good copy; the row is updated if need be. */
  lemma LookDecides(c: Setup, s: System, headOk: bool)
    requires Looking(c, s)
    ensures var i, seen := s.worker.i, s.worker.seen;
            Next(c, s, Check(true, headOk)) ==
              if !headOk || !GoodCopy(c, s, i) then s.(worker := ToUpload(i, seen, !headOk))
              else if UpToDate(c, seen[i], s.store[i].modified.value) then s.(worker := Checking(i + 1, seen))
              else s.(worker := Confirming(i, seen, s.store[i].modified.value))
  {
  }

  /** A row that the cleanup job moved in the meantime ends the attempt, as does a crash, and nothing else changes. */
  lemma ConflictStops(c: Setup, s: System, act: Action)
    requires
      || act.Crash?
      || (s.worker.Confirming? && act.Confirm? && s.worker.i < |c.items| == |s.rows| == |s.worker.seen|
          && s.rows[s.worker.i].status != s.worker.seen[s.worker.i].status)
      || (s.worker.ToUpload? && act.MarkUploading? && s.worker.i < |c.items| == |s.rows|
          && s.rows[s.worker.i].status == DeletePending)
      || (s.worker.Stored? && act.MarkAvailable? && s.worker.i < |c.items| == |s.rows|
          && s.rows[s.worker.i].status != Uploading)
    ensures Next(c, s, act) == s.(worker := Resting)
  {
  }

  /** An upload leaves its copy in the store; a failed one fails the row, unless that is in deletion. */
  lemma UploadOutcome(c: Setup, s: System, ok: bool, modified: int)
    requires s.worker.ToPut? && s.worker.i < |c.items| == |s.rows|
    ensures var i, s' := s.worker.i, Next(c, s, Put(ok, modified));
            && (ok ==> s' == s.(store := s.store[i := PutHead(c, c.items[i], modified)],
                                worker := Stored(i, s.worker.seen, s.now)))
            && (!ok ==>
                  && s'.task == RetryTask(s.task, s.now) && s'.worker == Resting && s'.store == s.store
                  && s'.rows == (if s.rows[i].status == DeletePending then s.rows
                                 else s.rows[i := s.rows[i].(status := Failed)]))
  {
  }

  /** Every object has a good copy, and no row is in deletion. */
  ghost predicate AllStored(c: Setup, s: System) {
    && |s.rows| == |c.items| > 0
    && forall i :: 0 <= i < |s.rows| ==>
         GoodCopy(c, s, i) && s.rows[i].status != DeletePending && s.rows[i].index == c.items[i].index
  }

  /** The first `i` rows agree with the store and the others are as they were listed. */
  ghost predicate Confirmed(c: Setup, s: System, i: nat, seen: seq<Row>) {
    && AllStored(c, s) && s.worker == Checking(i, seen) && i <= |seen| == |s.rows|
    && (forall j :: 0 <= j < i ==> UpToDate(c, s.rows[j], s.store[j].modified.value))
    && (forall j :: i <= j < |seen| ==> s.rows[j] == seen[j])
  }

  predicate NoUpload(act: Action) {
    !act.Put? && Undamaged(act)
  }

  /** Looking at object `i` and updating its row if need be. */
  lemma ConfirmReaches(c: Setup, s: System, i: nat, seen: seq<Row>) returns (acts: seq<Action>)
    requires Looking(c, s) && s.worker == Checking(i, seen) && GoodCopy(c, s, i) && s.rows[i] == seen[i]
    ensures var modified := s.store[i].modified.value;
            Run(c, s, acts) == (if UpToDate(c, seen[i], modified) then s else SetAvailable(c, s, i, modified))
                               .(worker := Checking(i + 1, seen))
    ensures forall k :: 0 <= k < |acts| ==> NoUpload(acts[k])
  {
    LookDecides(c, s, true);
    hide GoodCopy;
    var modified := s.store[i].modified.value;
    if UpToDate(c, seen[i], modified) {
      acts := [Check(true, true)];
      hide Next;
      assert acts[1..] == [];
    } else {
      acts := [Check(true, true), Confirm];
      var s1 := s.(worker := Confirming(i, seen, modified));
      assert Next(c, s1, Confirm) == SetAvailable(c, s, i, modified).(worker := Checking(i + 1, seen));
      hide Run, Next;
      RunTwo(c, s, acts);
    }
  }

  /** Only the clock, the store and the key of a row matter to what is stored. */
  lemma StillStored(c: Setup, s: System, s': System)
    requires AllStored(c, s) && s'.store == s.store && s'.now == s.now && |s'.rows| == |s.rows|
    requires forall j :: 0 <= j < |s.rows| ==> s'.rows[j].status != DeletePending && s'.rows[j].index == s.rows[j].index
    ensures AllStored(c, s')
  {
    hide Promised;
    forall j | 0 <= j < |s'.rows|
      ensures GoodCopy(c, s', j)
    {
      assert GoodCopy(c, s, j);
    }
  }

  lemma ConfirmOne(c: Setup, s: System, i: nat, seen: seq<Row>) returns (acts: seq<Action>)
    requires Confirmed(c, s, i, seen) && i < |seen|
    ensures var s' := Run(c, s, acts);
            Confirmed(c, s', i + 1, seen) && s'.store == s.store && s'.now == s.now && s'.task == s.task
    ensures forall k :: 0 <= k < |acts| ==> NoUpload(acts[k])
  {
    assert GoodCopy(c, s, i);
    acts := ConfirmReaches(c, s, i, seen);
    var s' := Run(c, s, acts);
    hide Run, GoodCopy;
    StillStored(c, s, s');
    hide AllStored;
  }

  lemma RunTwo(c: Setup, s: System, acts: seq<Action>)
    requires |acts| == 2
    ensures Run(c, s, acts) == Next(c, Next(c, s, acts[0]), acts[1])
  {
    hide Next;
    var s1 := Next(c, s, acts[0]);
    assert acts[1..][1..] == [];
    assert Run(c, s1, acts[1..]) == Run(c, Next(c, s1, acts[1]), []);
  }

  lemma {:induction false} ConfirmRest(c: Setup, s: System, i: nat, seen: seq<Row>) returns (acts: seq<Action>)
    requires Confirmed(c, s, i, seen)
    ensures var s' := Run(c, s, acts);
            Confirmed(c, s', |seen|, seen) && s'.store == s.store && s'.now == s.now && s'.task == s.task
    ensures forall k :: 0 <= k < |acts| ==> NoUpload(acts[k])
    decreases |seen| - i
  {
    if i == |seen| {
      acts := [];
    } else {
      var first := ConfirmOne(c, s, i, seen);
      hide Confirmed, Run, Next;
      var rest := ConfirmRest(c, Run(c, s, first), i + 1, seen);
      RunConcat(c, s, first, rest);
      acts := first + rest;
    }
  }

  lemma PublishConfirmed(c: Setup, s: System, seen: seq<Row>)
    requires Confirmed(c, s, |seen|, seen)
    ensures var s' := Run(c, s, [FinalList, Publish]); s'.task.output == Published && s'.store == s.store
  {
    forall j | 0 <= j < |s.rows|
      ensures s.rows[j].status == Available && s.rows[j].expiresAt > s.now
    {
      assert GoodCopy(c, s, j);
    }
    assert AllAvailable(s.rows, s.now);
    var s1 := Next(c, s, FinalList);
    assert s1.worker.ToPublish?;
    var s2 := Next(c, s1, Publish);
    RunTwo(c, s, [FinalList, Publish]);
  }

  /** After a crash, an attempt that finds all objects stored publishes them without a single upload. */
  lemma StoredIsNotUploadedAgain(c: Setup, s: System) returns (acts: seq<Action>)
    requires AllStored(c, s) && s.worker == Resting && s.task.output == Archiving && s.task.nextAttemptAt <= s.now
    ensures CalmRun(c, s, acts) && forall k :: 0 <= k < |acts| ==> !acts[k].Put?
    ensures Run(c, s, acts).task.output == Published && Run(c, s, acts).store == s.store
  {
    var first := Begin(c, s);
    var s1 := Run(c, s, first);
    assert Confirmed(c, s1, 0, s.rows) by {
      forall j | 0 <= j < |s.rows|
        ensures GoodCopy(c, s1, j)
      {
        assert GoodCopy(c, s, j);
      }
    }
    var middle := ConfirmRest(c, s1, 0, s.rows);
    PublishConfirmed(c, Run(c, s1, middle), s.rows);
    hide Confirmed, Run, Next, AllStored;
    RunConcat(c, s1, middle, [FinalList, Publish]);
    RunConcat(c, s, first, middle + [FinalList, Publish]);
    acts := first + (middle + [FinalList, Publish]);
    UndamagedIsCalm(c, s, acts);
  }

  // ---------------------------------------------------------------------------
  // The budget of retries can be used up
  // ---------------------------------------------------------------------------

  /** When the next attempt begins. */
  function DueTime(s: System): int {
    if s.task.nextAttemptAt > s.now then s.task.nextAttemptAt else s.now
  }

  /** The task waits for an attempt, and its first object is still to be uploaded. */
  ghost predicate Ready(c: Setup, s: System) {
    && s.worker == Resting && s.task.output == Archiving && |s.rows| == |c.items| > 0
    && s.task.attempts == s.task.retries
    && s.rows[0].status in {Uploading, Failed} && s.rows[0].index == c.items[0].index
  }

  /** An attempt whose first upload fails. */
  lemma FailingAttempt(c: Setup, s: System) returns (acts: seq<Action>)
    requires Ready(c, s) && s.task.attempts + 1 < s.task.maxAttempts && DueTime(s) < s.task.deadline
    ensures var s' := Run(c, s, acts);
            && Ready(c, s') && s'.task == RetryTask(s.task, DueTime(s)) && s'.now == DueTime(s)
    ensures forall i :: 0 <= i < |acts| ==> Undamaged(acts[i])
  {
    var first := Begin(c, s);
    var s0 := Run(c, s, first);
    hide HeadMatches, PutHead, Run;
    var rest := [Check(true, false), MarkUploading, Put(false, 0), Crash];
    var s1 := Next(c, s0, rest[0]);
    assert s1 == s0.(worker := ToUpload(0, s.rows, true));
    var s2 := Next(c, s1, rest[1]);
    assert s2 == SetStatus(s0, 0, Uploading).(worker := ToPut(0, s.rows, true));
    var s3 := Next(c, s2, rest[2]);
    assert s3 == SetStatus(s2, 0, Failed).(task := RetryTask(s.task, DueTime(s)), worker := Resting);
    var s4 := Next(c, s3, rest[3]);
    RunFour(c, s0, rest);
    RunConcat(c, s, first, rest);
    acts := first + rest;
  }

  /** With time enough, failing uploads do schedule all the retries there are. */
  lemma BudgetAttained(c: Setup, s: System) returns (acts: seq<Action>)
    requires Ready(c, s) && s.task.attempts < s.task.maxAttempts
    requires DueTime(s) + 900 * (s.task.maxAttempts - s.task.attempts) < s.task.deadline
    ensures CalmRun(c, s, acts) && Run(c, s, acts).task.output == Archiving
    ensures Run(c, s, acts).task.retries == s.task.maxAttempts - 1
  {
    acts := Spend(c, s);
    UndamagedIsCalm(c, s, acts);
  }

  lemma {:induction false} Spend(c: Setup, s: System) returns (acts: seq<Action>)
    requires Ready(c, s) && s.task.attempts < s.task.maxAttempts
    requires DueTime(s) + 900 * (s.task.maxAttempts - s.task.attempts) < s.task.deadline
    ensures Ready(c, Run(c, s, acts)) && Run(c, s, acts).task.retries == s.task.maxAttempts - 1
    ensures forall i :: 0 <= i < |acts| ==> Undamaged(acts[i])
    decreases s.task.maxAttempts - s.task.attempts
  {
    if s.task.attempts + 1 == s.task.maxAttempts {
      acts := [];
    } else {
      var first := FailingAttempt(c, s);
      var s1 := Run(c, s, first);
      BackoffMonotone(s.task.attempts + 1, s.task.attempts + 1);
      hide Ready, Run, Next, Backoff;
      var rest := Spend(c, s1);
      RunConcat(c, s, first, rest);
      acts := first + rest;
    }
  }

  // ---------------------------------------------------------------------------
  // Expired objects are deleted
  // ---------------------------------------------------------------------------

  /** The cleanup job deletes an expired object, marks its row and expires a task whose published expiry has passed. */
  lemma ExpiredIsDeleted(c: Setup, s: System, i: nat)
    requires i < |s.rows| && !InCleanup(s, i)
    requires s.rows[i].status == DeletePending || (s.rows[i].status == Available && 0 < s.rows[i].expiresAt <= s.now)
    ensures var s' := Next(c, Next(c, Next(c, s, ClaimExpired(i)), DeleteObject(i, true)), MarkDeleted(i));
            && s'.rows == s.rows[i := s.rows[i].(status := Deleted)] && s'.store == s.store - {i}
            && s'.task == (if s.task.output == Published && 0 < s.task.outputExpiresAt <= s.now
                           then s.task.(output := Expired) else s.task)
            && s'.cleaner == s.cleaner && s'.worker == s.worker && s'.now == s.now
  {
  }

  /** A deletion that fails, or a job that stops, lets go of its objects; they can be claimed again. */
  lemma DeletionIsRetried(c: Setup, s: System, i: nat)
    requires i < |s.rows| && i in s.cleaner.held && s.rows[i].status == DeletePending && i !in s.cleaner.removed
    ensures var failed, stopped := Next(c, s, DeleteObject(i, false)), Next(c, s, StopCleanup);
            && failed == s.(cleaner := Cleaner(s.cleaner.held - {i}, s.cleaner.removed))
            && stopped == s.(cleaner := Cleaner({}, {}))
            && Next(c, failed, ClaimExpired(i)) == s
            && Next(c, stopped, ClaimExpired(i)) == s.(cleaner := Cleaner({i}, {}))
  {
  }

  /** A reset gives a failed task all its attempts back, due at once, until the new deadline; others it leaves alone. */
  lemma ResetRestarts(c: Setup, s: System, deadline: int)
    ensures var s' := Next(c, s, AdminReset(deadline));
            if s.task.output == OutputFailed then
              && s'.task.output == Archiving && s'.task.attempts == 0 && s'.task.retries == 0
              && s'.task.deadline == deadline && s'.task.nextAttemptAt == s.now
              && s'.task.maxAttempts == s.task.maxAttempts
              && s' == s.(task := s'.task)
            else s' == s
  {
  }

  /** A row that is neither expired nor marked for deletion is not touched. */
  lemma UnexpiredIsKept(c: Setup, s: System, act: Action, i: nat)
    requires CleanerInv(s) && CleanerAct(act) && i < |s.rows| && s.rows[i].status != DeletePending
    requires s.rows[i].status == Available ==> s.rows[i].expiresAt <= 0 || s.now < s.rows[i].expiresAt
    ensures var s' := Next(c, s, act);
            && i < |s'.rows| && s'.rows[i] == s.rows[i] && (i in s'.store <==> i in s.store)
            && (i in s.store ==> s'.store[i] == s.store[i])
  {
  }

  // ---------------------------------------------------------------------------
  // Why runs have to be calm
  // ---------------------------------------------------------------------------

  /**
   A worker that finds a staged file damaged keeps the invariant exactly when the cleanup job does
   not hold the object.
   */
  lemma StagingFailureSafeIff(c: Setup, s: System, headOk: bool)
    requires Inv(c, s) && s.worker.Checking? && s.worker.i < |c.items|
    requires s.worker.seen[s.worker.i].status != DeletePending
    requires s.worker.seen[s.worker.i].index == c.items[s.worker.i].index
    ensures Inv(c, Next(c, s, Check(false, headOk))) <==> !InCleanup(s, s.worker.i)
  {
    if !InCleanup(s, s.worker.i) {
      CheckKeepsInv(c, s, false, headOk);
    } else {
      assert Next(c, s, Check(false, headOk)).rows[s.worker.i].status == Failed;
      assert InCleanup(Next(c, s, Check(false, headOk)), s.worker.i);
    }
  }

  /**
   The same for an administrator whose validation finds the file of object `i` damaged,
   whatever has become of the task since it was read: no worker may be at it either.
   */
  lemma ValidationFailureSafeIff(c: Setup, s: System, i: nat)
    requires Inv(c, s) && i < |s.rows|
    ensures Inv(c, Next(c, s, ValidateFails(i))) <==> !InCleanup(s, i) && s.worker.Resting?
  {
    if !InCleanup(s, i) && s.worker.Resting? {
      OtherKeepsInv(c, s, ValidateFails(i));
    } else {
      assert Next(c, s, ValidateFails(i)).rows[i].status == Failed;
      assert Next(c, s, ValidateFails(i)).task.output == OutputFailed;
    }
  }

  /** A stale validation just before publication: the task is published, unexpired, with a failed row. */
  lemma StaleValidationIsPublished(c: Setup, s: System, i: nat)
    requires Inv(c, s) && s.worker.ToPublish? && s.now < s.worker.expiresAt && i < |s.rows|
    ensures var s' := Next(c, Next(c, s, ValidateFails(i)), Publish);
            && s'.task.output == Published && s'.now < s'.task.outputExpiresAt
            && s'.rows[i].status == Failed
  {
  }

  lemma {:induction false} RunAppend(c: Setup, s: System, acts: seq<Action>, act: Action)
    ensures Run(c, s, acts + [act]) == Next(c, Run(c, s, acts), act)
    decreases |acts|
  {
    hide Next;
    if acts == [] {
      assert Run(c, Next(c, s, act), []) == Next(c, s, act);
    } else {
      assert (acts + [act])[1..] == acts[1..] + [act];
      RunAppend(c, Next(c, s, acts[0]), acts[1..], act);
    }
  }

  /**
   One object: expired in its row and in the store, about to be deleted; the task waits for an
   attempt or has failed.
   */
  ghost predicate ExpiredObject(c: Setup, s: System, output: Output) {
    && c.items == [Item(0, 1, "image/png", "h")] && c.retention == 40
    && s.now == 100 && s.worker == Resting && s.cleaner == IDLE
    && s.rows == [Row(0, Available, 10, 50)] && s.store == map[0 := PutHead(c, c.items[0], 10)]
    && s.task == Task(output, 0, 9, 1000, 0, 0, 0, 0)
  }

  /** The deletion is claimed, the row is marked failed all the same, and the task is to be archived again. */
  ghost predicate Interrupted(c: Setup, s: System) {
    && c.items == [Item(0, 1, "image/png", "h")] && c.retention == 40
    && s.now == 100 && s.worker == Resting && s.cleaner == Cleaner({0}, {})
    && s.task.output == Archiving && s.task.nextAttemptAt <= s.now
    && s.rows == [Row(0, Failed, 10, 50)] && s.store == map[0 := PutHead(c, c.items[0], 10)]
  }

  /** The attempt finds the staged file damaged and an administrator resets the task. */
  lemma InterruptedByWorker(c: Setup, s: System) returns (acts: seq<Action>)
    requires ExpiredObject(c, s, Archiving)
    ensures Interrupted(c, Run(c, s, acts))
  {
    acts := [];
    RunAppend(c, s, acts, Start); acts := acts + [Start];
    var s1 := Run(c, s, acts);
    assert s1 == s.(worker := Checking(0, s.rows));
    RunAppend(c, s, acts, ClaimExpired(0)); acts := acts + [ClaimExpired(0)];
    var s2 := Run(c, s, acts);
    assert s2 == s1.(rows := [Row(0, DeletePending, 10, 50)], cleaner := Cleaner({0}, {}));
    RunAppend(c, s, acts, Check(false, true)); acts := acts + [Check(false, true)];
    var s3 := Run(c, s, acts);
    assert s3 == s2.(rows := [Row(0, Failed, 10, 50)], worker := Resting, task := FailTask(s.task, 1));
    RunAppend(c, s, acts, AdminReset(1000)); acts := acts + [AdminReset(1000)];
  }

  /** No worker at all: one validation finds the file damaged, a second one succeeds and resets the task. */
  lemma InterruptedByValidation(c: Setup, s: System) returns (acts: seq<Action>)
    requires ExpiredObject(c, s, OutputFailed)
    ensures Interrupted(c, Run(c, s, acts))
    ensures forall i :: 0 <= i < |acts| ==> !acts[i].Check?
  {
    acts := [];
    RunAppend(c, s, acts, ClaimExpired(0)); acts := acts + [ClaimExpired(0)];
    var s1 := Run(c, s, acts);
    assert s1 == s.(rows := [Row(0, DeletePending, 10, 50)], cleaner := Cleaner({0}, {}));
    RunAppend(c, s, acts, ValidateFails(0)); acts := acts + [ValidateFails(0)];
    var s2 := Run(c, s, acts);
    assert s2 == s1.(rows := [Row(0, Failed, 10, 50)]);
    RunAppend(c, s, acts, AdminReset(1000)); acts := acts + [AdminReset(1000)];
  }

  /** The task is published with an unexpired object that is not in the store. */
  ghost predicate PublishedLoss(s: System) {
    && s.task.output == Published && s.now < s.task.outputExpiresAt
    && |s.rows| == 1 && s.rows[0].status == Available && s.rows[0].expiresAt > s.now && 0 !in s.store
  }

  /** The next attempt uploads again, the delayed deletion removes the new copy, and the row is marked available. */
  lemma ReuploadDeleted(c: Setup, s: System) returns (acts: seq<Action>)
    requires Interrupted(c, s)
    ensures var s' := Run(c, s, acts);
            && s'.now == 100 && s'.rows == [Row(0, Available, 100, 140)] && 0 !in s'.store
            && s'.worker == Checking(1, s.rows) && s'.task.output == Archiving
  {
    acts := [];
    RunAppend(c, s, acts, Start); acts := acts + [Start];
    var s1 := Run(c, s, acts);
    assert s1 == s.(worker := Checking(0, s.rows));
    RunAppend(c, s, acts, Check(true, true)); acts := acts + [Check(true, true)];
    var s2 := Run(c, s, acts);
    assert s2 == s.(worker := ToUpload(0, s.rows, false));
    RunAppend(c, s, acts, MarkUploading); acts := acts + [MarkUploading];
    var s3 := Run(c, s, acts);
    assert s3 == s.(rows := [Row(0, Uploading, 10, 50)], worker := ToPut(0, s.rows, false));
    RunAppend(c, s, acts, Put(true, 100)); acts := acts + [Put(true, 100)];
    var s4 := Run(c, s, acts);
    assert s4 == s3.(worker := Stored(0, s.rows, 100), store := s4.store);
    hide PutHead, HeadMatches;
    RunAppend(c, s, acts, DeleteObject(0, true)); acts := acts + [DeleteObject(0, true)];
    var s5 := Run(c, s, acts);
    assert s5 == s4.(store := s4.store - {0}, cleaner := s5.cleaner);
    RunAppend(c, s, acts, MarkAvailable); acts := acts + [MarkAvailable];
  }

  lemma PublishAfterLoss(c: Setup, s: System) returns (acts: seq<Action>)
    requires |c.items| == 1 && s.now == 100 && s.rows == [Row(0, Available, 100, 140)] && 0 !in s.store
    requires s.worker.Checking? && s.worker.i == 1 && s.task.output == Archiving
    ensures PublishedLoss(Run(c, s, acts))
  {
    acts := [];
    RunAppend(c, s, acts, FinalList); acts := acts + [FinalList];
    var s1 := Run(c, s, acts);
    assert s.rows[..0] == [];
    assert MinExpiry(s.rows) == 140;
    assert s1 == s.(worker := ToPublish(140, 100));
    RunAppend(c, s, acts, Publish); acts := acts + [Publish];
  }

  lemma {:induction false} RunConcat(c: Setup, s: System, first: seq<Action>, second: seq<Action>)
    ensures Run(c, s, first + second) == Run(c, Run(c, s, first), second)
    decreases |first|
  {
    hide Next;
    if first == [] {
      assert first + second == second;
    } else {
      assert (first + second)[1..] == first[1..] + second;
      RunConcat(c, Next(c, s, first[0]), first[1..], second);
    }
  }

  lemma InterruptedLoses(c: Setup, s: System, first: seq<Action>)
    requires Interrupted(c, Run(c, s, first))
    ensures exists acts :: PublishedLoss(Run(c, s, acts))
  {
    hide Next, Interrupted;
    var second := ReuploadDeleted(c, Run(c, s, first));
    RunConcat(c, s, first, second);
    assert c.items == [Item(0, 1, "image/png", "h")] by { InterruptedItems(c, Run(c, s, first)); }
    var third := PublishAfterLoss(c, Run(c, s, first + second));
    RunConcat(c, s, first + second, third);
  }

  lemma InterruptedItems(c: Setup, s: System)
    requires Interrupted(c, s)
    ensures c.items == [Item(0, 1, "image/png", "h")]
  {
  }

  /** From a good state, a worker that marks a row in deletion leads to a published object that is gone. */
  lemma InterruptedDeletionLosesObject(c: Setup, s: System)
    requires ExpiredObject(c, s, Archiving)
    ensures Inv(c, s) && exists acts :: PublishedLoss(Run(c, s, acts))
  {
    var first := InterruptedByWorker(c, s);
    InterruptedLoses(c, s, first);
  }

  /** So does an administrator's failing validation, with no worker running when the row is marked. */
  lemma FailingValidationLosesObject(c: Setup, s: System)
    requires ExpiredObject(c, s, OutputFailed)
    ensures Inv(c, s) && exists acts :: PublishedLoss(Run(c, s, acts))
  {
    var first := InterruptedByValidation(c, s);
    InterruptedLoses(c, s, first);
  }
}
