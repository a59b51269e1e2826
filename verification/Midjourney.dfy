/**
 Polling Midjourney tasks and refunding failed ones (controller/midjourney.go,
 model/midjourney.go).

 Any number of polling passes run at once. A pass loads the unfinished rows, and
 for each answer of the upstream it decides, writes the row if its status is still
 the one it loaded (compare-and-swap), and pays the quota back. Every database
 statement is one step.
 */
module Midjourney {

  datatype Option<T> = None | Some(value: T)

  /** The fields the upstream reports; `videoUrls` is the serialised list, empty for none. */
  datatype Content = Content(
    status: string,
    progress: string,
    failReason: string,
    promptEn: string,
    state: string,
    submitTime: int,
    startTime: int,
    finishTime: int,
    imageUrl: string,
    videoUrl: string,
    videoUrls: string)

  /** The upstream's id of a task; empty while the upstream has not given one. */
  datatype MjId = MjId(text: string)

  /** Two serialised fields that an answer may leave out. */
  datatype Extras = Extras(properties: string, buttons: string)

  datatype Row = Row(user: int, mjId: MjId, quota: int, code: int, content: Content, extras: Extras)

  /** An answer of the upstream. */
  datatype Reply = Reply(content: Content, properties: Option<string>, buttons: Option<string>)

  predicate IsFailure(c: Content) {
    c.status == "FAILURE"
  }

  predicate IsDone(c: Content) {
    c.progress == "100%"
  }

  predicate HasReason(c: Content) {
    c.failReason != ""
  }

  // ---------------------------------------------------------------------------
  // The decision for one answer
  // ---------------------------------------------------------------------------

  const TIMEOUT_MS := 3600000

  /** "The upstream task timed out (more than 1 hour)", in Chinese. */
  const TIMEOUT_REASON :=
    "\U{4E0A}\U{6E38}\U{4EFB}\U{52A1}\U{8D85}\U{65F6}\U{FF08}\U{8D85}\U{8FC7}1\U{5C0F}\U{65F6}\U{FF09}"

  /** A task that is not done after an hour is treated as failed, whatever was answered. */
  function WithTimeout(row: Row, answer: Reply, nowMs: int): Reply {
    if nowMs - row.content.submitTime > TIMEOUT_MS && !IsDone(row.content)
    then answer.(content := answer.content.(failReason := TIMEOUT_REASON, status := "FAILURE"))
    else answer
  }

  /** `checkMjTaskNeedUpdate`; it does not look at the two extra fields. */
  predicate NeedsUpdate(row: Row, reply: Reply) {
    var stored, answer := row.content, reply.content;
    || row.code != 1
    || stored.progress != answer.progress
    || stored.promptEn != answer.promptEn
    || stored.state != answer.state
    || stored.submitTime != answer.submitTime
    || stored.startTime != answer.startTime
    || stored.finishTime != answer.finishTime
    || stored.imageUrl != answer.imageUrl
    || stored.status != answer.status
    || stored.failReason != answer.failReason
    || (!IsDone(stored) && HasReason(answer))
    || stored.videoUrl != answer.videoUrl
    || (if answer.videoUrls != "" then stored.videoUrls != answer.videoUrls else stored.videoUrls != "")
  }

  /** The answer makes the task a failure whose quota is to be returned. */
  predicate Fails(answer: Content) {
    (!IsDone(answer) && HasReason(answer)) || (IsDone(answer) && IsFailure(answer))
  }

  /** The row the pass tries to write. */
  function Updated(row: Row, reply: Reply): Row {
    var answer := reply.content;
    row.(code := 1, content := if Fails(answer) then answer.(progress := "100%") else answer,
         extras := Extras(OrStored(reply.properties, row.extras.properties),
             OrStored(reply.buttons, row.extras.buttons)))
  }

  /** A field that is left out keeps its stored text. */
  function OrStored(field: Option<string>, stored: string): string {
    if field.Some? then field.value else stored
  }

  predicate OwesRefund(row: Row, reply: Reply) {
    Fails(reply.content) && row.quota != 0
  }

  /** What a pass does with an answer: nothing, or try to write `row` and then maybe pay back. */
  datatype Decision = Skip | Write(row: Row, refund: bool)

  function Decide(row: Row, answer0: Reply, nowMs: int): Decision {
    var answer := WithTimeout(row, answer0, nowMs);
    if NeedsUpdate(row, answer) then Write(Updated(row, answer), OwesRefund(row, answer)) else Skip
  }

  /**
   A skipped answer owes no refund, and writing it would change nothing if and only if
   each extra field is left out or as stored: those two are not compared.
   */
  lemma SkippedAnswerChangesNothingIff(row: Row, answer0: Reply, nowMs: int)
    requires !IsDone(row.content) && Decide(row, answer0, nowMs).Skip?
    ensures var answer := WithTimeout(row, answer0, nowMs);
            && !OwesRefund(row, answer)
            && (Updated(row, answer) == row
                <==> && OrStored(answer0.properties, row.extras.properties) == row.extras.properties
                     && OrStored(answer0.buttons, row.extras.buttons) == row.extras.buttons)
  {
  }

  /** Whatever the task, new buttons or properties alone are skipped and lost. */
  lemma NewButtonsAreLost(row: Row, properties: Option<string>, buttons: Option<string>, nowMs: int)
    requires row.code == 1 && !IsDone(row.content) && !HasReason(row.content)
    requires nowMs - row.content.submitTime <= TIMEOUT_MS
    ensures var answer := Reply(row.content, properties, buttons);
            && Decide(row, answer, nowMs).Skip?
            && (buttons.Some? && buttons.value != row.extras.buttons ==> Updated(row, answer) != row)
            && (properties.Some? && properties.value != row.extras.properties ==> Updated(row, answer) != row)
  {
  }

  // ---------------------------------------------------------------------------
  // The protocol
  // ---------------------------------------------------------------------------

  /** A loaded copy of row `id`. */
  datatype Copy = Copy(id: nat, row: Row)

  /** One polling pass: its copies, the tasks already answered, a refund it has yet to pay. */
  datatype Pass = Pass(copies: map<MjId, Copy>, answered: set<MjId>, owed: Option<nat>)

  datatype System = System(
    rows: seq<Row>,
    passes: map<nat, Pass>,
    refunds: seq<nat>,        // row ids in the order in which quota was paid back
    credit: map<int, int>,    // what each user was paid back in all
    failedByPass: set<nat>,   // rows a pass wrote as failed with quota to return
    lost: set<nat>)           // refunds owed by a pass that was cut off

  datatype Action =
    | Submit(row: Row)
    | Load(pass: nat)
    | BulkFail(ids: set<nat>)
    | Answer(pass: nat, mjId: MjId, answer: Reply, nowMs: int)
    | PayBack(pass: nat)
    | Cut(pass: nat)

  /** The copies of the first `n` rows: unfinished and with an upstream id, the last one of an id wins. */
  function LoadCopies(rows: seq<Row>, n: nat): map<MjId, Copy>
    requires n <= |rows|
  {
    if n == 0 then map[]
    else
      var row, before := rows[n - 1], LoadCopies(rows, n - 1);
      if IsDone(row.content) || row.mjId == MjId("") then before else before[row.mjId := Copy(n - 1, row)]
  }

  function FailInBulk(rows: seq<Row>, ids: set<nat>): (r: seq<Row>)
    ensures |r| == |rows|
    ensures forall i :: 0 <= i < |rows| ==>
              r[i] == if i in ids then rows[i].(content := rows[i].content.(status := "FAILURE", progress := "100%"))
                  else rows[i]
  {
    seq(|rows|, i requires 0 <= i < |rows| =>
      if i in ids then rows[i].(content := rows[i].content.(status := "FAILURE", progress := "100%")) else rows[i])
  }

  function Credited(s: System, user: int): int {
    if user in s.credit then s.credit[user] else 0
  }

  /** Carry out a decision: compare-and-swap on the status the copy was loaded with. */
  function Apply(s: System, p: nat, mjId: MjId, d: Decision): System
    requires p in s.passes && mjId in s.passes[p].copies
  {
    var pass := s.passes[p].(answered := s.passes[p].answered + {mjId});
    var copy := pass.copies[mjId];
    if d.Skip? then s.(passes := s.passes[p := pass])
    else
      var pass' := pass.(copies := pass.copies[mjId := Copy(copy.id, d.row)]);
      if copy.id >= |s.rows| || s.rows[copy.id].content.status != copy.row.content.status
      then s.(passes := s.passes[p := pass'])
      else if d.refund
      then s.(rows := s.rows[copy.id := d.row], passes := s.passes[p := pass'.(owed := Some(copy.id))],
              failedByPass := s.failedByPass + {copy.id})
      else s.(rows := s.rows[copy.id := d.row], passes := s.passes[p := pass'])
  }

  function Next(s: System, act: Action): System {
    match act
    case Submit(row) => s.(rows := s.rows + [row])
    case Load(p) =>
      if p in s.passes then s
      else s.(passes := s.passes[p := Pass(LoadCopies(s.rows, |s.rows|), {}, None)])
    case BulkFail(ids) => s.(rows := FailInBulk(s.rows, ids))
    case Answer(p, mjId, answer, nowMs) =>
      if p in s.passes && s.passes[p].owed.None? && mjId in s.passes[p].copies
      then Apply(s, p, mjId, Decide(s.passes[p].copies[mjId].row, answer, nowMs)) else s
    case PayBack(p) =>
      if p !in s.passes || s.passes[p].owed.None? || s.passes[p].owed.value >= |s.rows| then s
      else
        var id := s.passes[p].owed.value;
        var user, quota := s.rows[id].user, s.rows[id].quota;
        s.(passes := s.passes[p := s.passes[p].(owed := None)], refunds := s.refunds + [id],
           credit := s.credit[user := Credited(s, user) + quota])
    case Cut(p) =>
      if p !in s.passes then s
      else s.(passes := s.passes - {p},
              lost := s.lost + (if s.passes[p].owed.Some? then {s.passes[p].owed.value} else {}))
  }

  function Run(s: System, acts: seq<Action>): System
    decreases |acts|
  {
    if acts == [] then s else Run(Next(s, acts[0]), acts[1..])
  }

  // ---------------------------------------------------------------------------
  // What the upstream has to respect
  // ---------------------------------------------------------------------------

  /** A reason comes with FAILURE, and FAILURE with a reason or full progress. */
  predicate Honest(answer: Content) {
    && (answer.failReason != "" ==> answer.status == "FAILURE")
    && (answer.status == "FAILURE" ==> answer.failReason != "" || answer.progress == "100%")
  }

  /** Rows are not submitted as failed and unfinished; a pass gets one honest answer per task. */
  predicate Fair(s: System, act: Action) {
    match act
    case Submit(row) => IsFailure(row.content) ==> IsDone(row.content)
    case Answer(p, mjId, answer, _) => Honest(answer.content) && (p in s.passes ==> mjId !in s.passes[p].answered)
    case _ => true
  }

  ghost predicate FairRun(s: System, acts: seq<Action>)
    decreases |acts|
  {
    acts == [] || (Fair(s, acts[0]) && FairRun(Next(s, acts[0]), acts[1..]))
  }

  // ---------------------------------------------------------------------------
  // The invariant
  // ---------------------------------------------------------------------------

  ghost predicate FailuresAreDone(s: System) {
    forall i :: 0 <= i < |s.rows| && IsFailure(s.rows[i].content) ==> IsDone(s.rows[i].content)
  }

  /** An unanswered copy is neither done nor failed, and is of the row it claims to be. */
  ghost predicate CopyOk(s: System, copy: Copy, answered: bool) {
    && copy.id < |s.rows|
    && copy.row.user == s.rows[copy.id].user && copy.row.quota == s.rows[copy.id].quota
    && (!answered ==> !IsDone(copy.row.content) && !IsFailure(copy.row.content))
  }

  ghost predicate CopiesOk(s: System) {
    forall p, m :: p in s.passes && m in s.passes[p].copies ==>
        CopyOk(s, s.passes[p].copies[m], m in s.passes[p].answered)
  }

  predicate Owes(s: System, p: nat, id: nat) {
    p in s.passes && s.passes[p].owed == Some(id)
  }

  /** Every id in these three places stands for one failure written by a pass, and no place overlaps. */
  ghost predicate RefundsOk(s: System) {
    && (forall i, j :: 0 <= i < j < |s.refunds| ==> s.refunds[i] != s.refunds[j])
    && (forall p, id :: Owes(s, p, id) ==> id !in s.refunds && id !in s.lost && id in s.failedByPass)
    && (forall p, q, id :: Owes(s, p, id) && Owes(s, q, id) ==> p == q)
    && (forall id :: id in s.refunds ==> id in s.failedByPass && id !in s.lost)
    && (forall id :: id in s.lost ==> id in s.failedByPass)
    && (forall id :: id in s.failedByPass ==>
          id < |s.rows| && IsFailure(s.rows[id].content) && s.rows[id].quota != 0)
    && (forall id :: id in s.failedByPass ==> id in s.refunds || id in s.lost || exists p :: Owes(s, p, id))
  }

  function PaidTo(refunds: seq<nat>, rows: seq<Row>, user: int): int
    requires forall i :: 0 <= i < |refunds| ==> refunds[i] < |rows|
  {
    if refunds == [] then 0
    else
      var last := rows[refunds[|refunds| - 1]];
      PaidTo(refunds[..|refunds| - 1], rows, user) + (if last.user == user then last.quota else 0)
  }

  ghost predicate CreditOk(s: System) {
    && (forall i :: 0 <= i < |s.refunds| ==> s.refunds[i] < |s.rows|)
    && forall user :: Credited(s, user) == PaidTo(s.refunds, s.rows, user)
  }

  ghost predicate Inv(s: System) {
    FailuresAreDone(s) && CopiesOk(s) && RefundsOk(s) && CreditOk(s)
  }

  /** The later table has the same owners and quotas. */
  ghost predicate SameOwners(rows: seq<Row>, rows': seq<Row>) {
    |rows| <= |rows'| && forall i :: 0 <= i < |rows| ==>
        rows'[i].user == rows[i].user && rows'[i].quota == rows[i].quota
  }

  lemma {:induction false} PaidToSame(refunds: seq<nat>, rows: seq<Row>, rows': seq<Row>, user: int)
    requires SameOwners(rows, rows') && forall i :: 0 <= i < |refunds| ==> refunds[i] < |rows|
    ensures PaidTo(refunds, rows', user) == PaidTo(refunds, rows, user)
  {
    if refunds != [] {
      PaidToSame(refunds[..|refunds| - 1], rows, rows', user);
    }
  }

  lemma CreditKept(s: System, s': System)
    requires CreditOk(s) && s'.refunds == s.refunds && s'.credit == s.credit && SameOwners(s.rows, s'.rows)
    ensures CreditOk(s')
  {
    forall user
      ensures Credited(s', user) == PaidTo(s'.refunds, s'.rows, user)
    {
      PaidToSame(s.refunds, s.rows, s'.rows, user);
    }
  }

  lemma {:induction false} LoadedCopies(rows: seq<Row>, n: nat, m: MjId)
    requires n <= |rows| && m in LoadCopies(rows, n)
    ensures var copy := LoadCopies(rows, n)[m];
            copy.id < n && copy.row == rows[copy.id] && !IsDone(copy.row.content) && copy.row.mjId == m
  {
    var row := rows[n - 1];
    if IsDone(row.content) || row.mjId == MjId("") || row.mjId != m {
      LoadedCopies(rows, n - 1, m);
    }
  }

  /** Steps that write off or record no refund leave the bookkeeping of refunds alone. */
  lemma RefundsKept(s: System, s': System)
    requires RefundsOk(s) && s'.refunds == s.refunds && s'.lost == s.lost && s'.failedByPass == s.failedByPass
    requires forall q, id :: Owes(s', q, id) <==> Owes(s, q, id)
    requires forall id :: id in s.failedByPass ==>
               id < |s'.rows| && IsFailure(s'.rows[id].content) && s'.rows[id].quota == s.rows[id].quota
    ensures RefundsOk(s')
  {
    hide IsFailure;
    forall id | id in s'.failedByPass && id !in s'.refunds && id !in s'.lost
      ensures exists p :: Owes(s', p, id)
    {
      var p :| Owes(s, p, id);
      assert Owes(s', p, id);
    }
  }

  lemma SubmitKeepsInv(s: System, row: Row)
    requires Inv(s) && Fair(s, Submit(row))
    ensures Inv(Next(s, Submit(row)))
  {
    var s' := Next(s, Submit(row));
    CreditKept(s, s');
    assert forall q, id :: Owes(s', q, id) <==> Owes(s, q, id);
    RefundsKept(s, s');
    hide CreditOk, RefundsOk;
  }

  lemma LoadKeepsInv(s: System, p: nat)
    requires Inv(s)
    ensures Inv(Next(s, Load(p)))
  {
    var s' := Next(s, Load(p));
    if p !in s.passes {
      CreditKept(s, s');
      hide IsDone, IsFailure;
      assert forall q, id :: Owes(s', q, id) <==> Owes(s, q, id);
      RefundsKept(s, s');
      hide CreditOk, RefundsOk;
      forall m | m in s'.passes[p].copies
        ensures CopyOk(s', s'.passes[p].copies[m], false)
      {
        LoadedCopies(s.rows, |s.rows|, m);
      }
    }
  }

  lemma BulkFailKeepsInv(s: System, ids: set<nat>)
    requires Inv(s)
    ensures Inv(Next(s, BulkFail(ids)))
  {
    var s' := Next(s, BulkFail(ids));
    CreditKept(s, s');
    assert forall q, id :: Owes(s', q, id) <==> Owes(s, q, id);
    RefundsKept(s, s');
    hide CreditOk, RefundsOk;
  }

  lemma PayBackCredits(s: System, p: nat)
    requires CreditOk(s)
    ensures CreditOk(Next(s, PayBack(p)))
  {
    var s' := Next(s, PayBack(p));
    if s' != s {
      forall user
        ensures Credited(s', user) == PaidTo(s'.refunds, s'.rows, user)
      {
        assert s'.refunds[..|s.refunds|] == s.refunds;
      }
    }
  }

  lemma PayBackKeepsRefunds(s: System, p: nat)
    requires RefundsOk(s)
    ensures RefundsOk(Next(s, PayBack(p)))
  {
    hide IsFailure;
    var s' := Next(s, PayBack(p));
    if s' != s {
      var id := s.passes[p].owed.value;
      assert Owes(s, p, id);
      assert forall q, i :: Owes(s', q, i) <==> Owes(s, q, i) && q != p;
      forall i | i in s'.failedByPass && i !in s'.refunds && i !in s'.lost
        ensures exists q :: Owes(s', q, i)
      {
        var q :| Owes(s, q, i);
        assert q != p;
        assert Owes(s', q, i);
      }
    }
  }

  lemma PayBackKeepsInv(s: System, p: nat)
    requires Inv(s)
    ensures Inv(Next(s, PayBack(p)))
  {
    PayBackCredits(s, p);
    PayBackKeepsRefunds(s, p);
    hide CreditOk, RefundsOk;
  }

  lemma CutKeepsInv(s: System, p: nat)
    requires Inv(s)
    ensures Inv(Next(s, Cut(p)))
  {
    var s' := Next(s, Cut(p));
    if p in s.passes {
      CreditKept(s, s');
      hide CreditOk, IsFailure;
      assert s.passes[p].owed.Some? ==> Owes(s, p, s.passes[p].owed.value);
      assert forall q, i :: Owes(s', q, i) <==> Owes(s, q, i) && q != p;
      forall i | i in s'.failedByPass && i !in s'.refunds && i !in s'.lost
        ensures exists q :: Owes(s', q, i)
      {
        var q :| Owes(s, q, i);
        assert q != p;
        assert Owes(s', q, i);
      }
    }
  }

  /** What a decision on an honest answer looks like. */
  ghost predicate Sound(row: Row, d: Decision) {
    d.Write? ==>
      && d.row.user == row.user && d.row.quota == row.quota
      && (IsFailure(d.row.content) ==> IsDone(d.row.content))
      && (d.refund <==> IsFailure(d.row.content) && row.quota != 0)
  }

  lemma HonestDecision(row: Row, answer: Reply, nowMs: int)
    requires Honest(answer.content)
    ensures Sound(row, Decide(row, answer, nowMs))
  {
    hide NeedsUpdate;
  }

  /**
   For an honest answer to a task that is neither finished nor failed: it is written as a
   finished failure exactly when the answer says so or an hour has passed since it was
   submitted, and the quota is returned exactly then, unless there is none.
   */
  lemma FailureIsDecided(row: Row, answer: Reply, nowMs: int)
    requires Honest(answer.content) && row.content.progress != "100%" && row.content.status != "FAILURE"
    ensures var d := Decide(row, answer, nowMs);
            var failed := answer.content.status == "FAILURE" || nowMs - row.content.submitTime > 3600000;
            && (d.Write? && d.row.content.status == "FAILURE" <==> failed)
            && (d.Write? && d.refund <==> failed && row.quota != 0)
            && (failed ==> d.row.content.progress == "100%")
            && (nowMs - row.content.submitTime > 3600000 ==> d.row.content.failReason == TIMEOUT_REASON)
  {
  }

  /** What is written otherwise is the answer itself, with the extra fields it gives. */
  lemma AnswerIsWritten(row: Row, answer: Reply, nowMs: int)
    requires Decide(row, answer, nowMs).Write? && Honest(answer.content)
    ensures var row' := Decide(row, answer, nowMs).row;
            && row'.user == row.user && row'.mjId == row.mjId && row'.quota == row.quota && row'.code == 1
            && (row'.content.status != "FAILURE" ==> row'.content == answer.content)
            && row'.extras == Extras(if answer.properties.Some? then answer.properties.value else row.extras.properties,
                                     if answer.buttons.Some? then answer.buttons.value else row.extras.buttons)
  {
    hide NeedsUpdate;
  }

  /** A copy that was not answered yet can only be swapped in over a row that no pass has failed. */
  lemma SwapMeansNotFailed(s: System, p: nat, mjId: MjId)
    requires Inv(s) && p in s.passes && mjId in s.passes[p].copies && mjId !in s.passes[p].answered
    requires var copy := s.passes[p].copies[mjId];
             copy.id < |s.rows| && s.rows[copy.id].content.status == copy.row.content.status
    ensures s.passes[p].copies[mjId].id !in s.failedByPass
  {
    assert CopyOk(s, s.passes[p].copies[mjId], false);
    hide CopiesOk, FailuresAreDone, CreditOk;
  }

  lemma ApplyKeepsRows(s: System, p: nat, mjId: MjId, d: Decision)
    requires FailuresAreDone(s) && CopiesOk(s) && p in s.passes && mjId in s.passes[p].copies
    requires Sound(s.passes[p].copies[mjId].row, d)
    ensures var s' := Apply(s, p, mjId, d);
            && FailuresAreDone(s') && SameOwners(s.rows, s'.rows) && |s'.rows| == |s.rows|
            && s'.refunds == s.refunds && s'.credit == s.credit
  {
    assert CopyOk(s, s.passes[p].copies[mjId], mjId in s.passes[p].answered);
    hide IsDone, IsFailure, CopiesOk;
  }

  /** An answer touches one copy of one pass, and keeps which row it is of. */
  lemma ApplyTouchesOneCopy(s: System, p: nat, mjId: MjId, d: Decision, q: nat, m: MjId)
    requires p in s.passes && mjId in s.passes[p].copies
    requires q in Apply(s, p, mjId, d).passes && m in Apply(s, p, mjId, d).passes[q].copies
    ensures q in s.passes && m in s.passes[q].copies
    ensures var before, after := s.passes[q], Apply(s, p, mjId, d).passes[q];
            if q == p && m == mjId
            then m in after.answered && after.copies[m].id == before.copies[m].id
                 && ((d.Write? && after.copies[m].row == d.row) || after.copies[m] == before.copies[m])
            else after.copies[m] == before.copies[m] && (m in after.answered <==> m in before.answered)
  {
  }

  lemma ApplyKeepsCopies(s: System, p: nat, mjId: MjId, d: Decision)
    requires FailuresAreDone(s) && CopiesOk(s) && p in s.passes && mjId in s.passes[p].copies
    requires Sound(s.passes[p].copies[mjId].row, d)
    ensures CopiesOk(Apply(s, p, mjId, d))
  {
    ApplyKeepsRows(s, p, mjId, d);
    hide IsDone, IsFailure, FailuresAreDone, Apply;
    var s' := Apply(s, p, mjId, d);
    forall q, m | q in s'.passes && m in s'.passes[q].copies
      ensures CopyOk(s', s'.passes[q].copies[m], m in s'.passes[q].answered)
    {
      ApplyTouchesOneCopy(s, p, mjId, d, q, m);
      assert CopyOk(s, s.passes[q].copies[m], m in s.passes[q].answered);
    }
  }

  lemma RefundRecorded(s: System, s': System, p: nat, id: nat)
    requires RefundsOk(s) && id !in s.failedByPass
    requires s'.refunds == s.refunds && s'.lost == s.lost && s'.failedByPass == s.failedByPass + {id}
    requires forall q, i :: Owes(s', q, i) <==> Owes(s, q, i) || (q == p && i == id)
    requires SameOwners(s.rows, s'.rows) && id < |s.rows|
    requires forall i :: 0 <= i < |s.rows| && i != id ==> s'.rows[i] == s.rows[i]
    requires IsFailure(s'.rows[id].content) && s.rows[id].quota != 0
    ensures RefundsOk(s')
  {
    hide IsFailure;
    assert Owes(s', p, id);
    forall i | i in s'.failedByPass && i !in s'.refunds && i !in s'.lost
      ensures exists q :: Owes(s', q, i)
    {
      if i != id {
        var q :| Owes(s, q, i);
        assert Owes(s', q, i);
      }
    }
  }

  lemma ApplyKeepsRefunds(s: System, p: nat, mjId: MjId, d: Decision)
    requires Inv(s) && p in s.passes && s.passes[p].owed.None?
    requires mjId in s.passes[p].copies && mjId !in s.passes[p].answered
    requires Sound(s.passes[p].copies[mjId].row, d)
    ensures RefundsOk(Apply(s, p, mjId, d))
  {
    var s' := Apply(s, p, mjId, d);
    var copy := s.passes[p].copies[mjId];
    assert CopyOk(s, copy, false);
    ApplyKeepsRows(s, p, mjId, d);
    if d.Write? && s.rows[copy.id].content.status == copy.row.content.status {
      SwapMeansNotFailed(s, p, mjId);
      hide IsDone, IsFailure, FailuresAreDone, CopiesOk, CreditOk;
      if d.refund {
        hide RefundsOk;
        assert forall q, i :: Owes(s', q, i) <==> Owes(s, q, i) || (q == p && i == copy.id);
        RefundRecorded(s, s', p, copy.id);
      } else {
        assert forall q, i :: Owes(s', q, i) <==> Owes(s, q, i);
        RefundsKept(s, s');
      }
    } else {
      hide IsDone, IsFailure, FailuresAreDone, CopiesOk, CreditOk;
      assert forall q, i :: Owes(s', q, i) <==> Owes(s, q, i);
      RefundsKept(s, s');
    }
  }

  lemma AnswerKeepsInv(s: System, p: nat, mjId: MjId, answer: Reply, nowMs: int)
    requires Inv(s) && p in s.passes && s.passes[p].owed.None? && mjId in s.passes[p].copies
    requires Fair(s, Answer(p, mjId, answer, nowMs))
    ensures Inv(Next(s, Answer(p, mjId, answer, nowMs)))
  {
    var row := s.passes[p].copies[mjId].row;
    var d := Decide(row, answer, nowMs);
    HonestDecision(row, answer, nowMs);
    ApplyKeepsRows(s, p, mjId, d);
    ApplyKeepsCopies(s, p, mjId, d);
    ApplyKeepsRefunds(s, p, mjId, d);
    CreditKept(s, Apply(s, p, mjId, d));
    hide Decide, Apply, CopiesOk, RefundsOk, CreditOk, FailuresAreDone;
  }

  lemma NextKeepsInv(s: System, act: Action)
    requires Inv(s) && Fair(s, act)
    ensures Inv(Next(s, act))
  {
    hide Inv;
    match act
    case Submit(row) => SubmitKeepsInv(s, row);
    case Load(p) => LoadKeepsInv(s, p);
    case BulkFail(ids) => BulkFailKeepsInv(s, ids);
    case Answer(p, mjId, answer, nowMs) =>
      if p in s.passes && s.passes[p].owed.None? && mjId in s.passes[p].copies {
        AnswerKeepsInv(s, p, mjId, answer, nowMs);
      }
    case PayBack(p) => PayBackKeepsInv(s, p);
    case Cut(p) => CutKeepsInv(s, p);
  }

  lemma {:induction false} RunKeepsInv(s: System, acts: seq<Action>)
    requires Inv(s) && FairRun(s, acts)
    ensures Inv(Run(s, acts))
    decreases |acts|
  {
    if acts != [] {
      hide Inv, Next, Fair;
      NextKeepsInv(s, acts[0]);
      RunKeepsInv(Next(s, acts[0]), acts[1..]);
    }
  }

  // ---------------------------------------------------------------------------
  // What every fair run guarantees
  // ---------------------------------------------------------------------------

  /** Submitted rows only: no pass has started and nothing was paid back. */
  ghost predicate Initial(s: System) {
    FailuresAreDone(s) && s.passes == map[] && s.refunds == [] && s.credit == map[] && s.failedByPass == {}
        && s.lost == {}
  }

  /** However many passes run at once, a task is refunded at most once, and its user gets exactly its quota. */
  lemma RefundedAtMostOnce(s: System, acts: seq<Action>)
    requires Initial(s) && FairRun(s, acts)
    ensures var s' := Run(s, acts);
            && (forall i, j :: 0 <= i < j < |s'.refunds| ==> s'.refunds[i] != s'.refunds[j])
            && (forall i :: 0 <= i < |s'.refunds| ==>
                  s'.refunds[i] < |s'.rows| && IsFailure(s'.rows[s'.refunds[i]].content)
                      && IsDone(s'.rows[s'.refunds[i]].content))
            && forall user :: Credited(s', user) == PaidTo(s'.refunds, s'.rows, user)
  {
    RunKeepsInv(s, acts);
    hide Run, FairRun, IsFailure, IsDone, PaidTo;
  }

  /** Row `id` turns into a failure, and there is quota to return. */
  ghost predicate Turns(s: System, s': System, id: nat) {
    && id < |s.rows| && id < |s'.rows| && s.rows[id].quota != 0
    && s.rows[id].content.status != "FAILURE" && s'.rows[id].content.status == "FAILURE"
  }

  /** At step `k` of the run, an answer turned row `id` into a failure. */
  ghost predicate FailedAt(s: System, acts: seq<Action>, id: nat, k: nat) {
    k < |acts| && acts[k].Answer? && Turns(Run(s, acts[..k]), Run(s, acts[..k + 1]), id)
  }

  /** A step records exactly the failures that its answer wrote. */
  lemma AnswerRecords(s: System, act: Action, id: nat)
    requires Inv(s) && Fair(s, act)
    ensures id in Next(s, act).failedByPass <==> id in s.failedByPass || (act.Answer? && Turns(s, Next(s, act), id))
  {
    if act.Answer? && act.pass in s.passes && s.passes[act.pass].owed.None? && act.mjId in s.passes[act.pass].copies {
      var copy := s.passes[act.pass].copies[act.mjId];
      assert CopyOk(s, copy, act.mjId in s.passes[act.pass].answered);
      HonestDecision(copy.row, act.answer, act.nowMs);
      hide Decide, RefundsOk, CreditOk, FailuresAreDone, CopiesOk;
    }
  }

  lemma {:induction false} FairPrefix(s: System, acts: seq<Action>, act: Action)
    requires FairRun(s, acts + [act])
    ensures FairRun(s, acts) && Fair(Run(s, acts), act)
    decreases |acts|
  {
    if acts == [] {
      assert (acts + [act])[0] == act;
    } else {
      assert (acts + [act])[0] == acts[0] && (acts + [act])[1..] == acts[1..] + [act];
      hide Next, Fair;
      FairPrefix(Next(s, acts[0]), acts[1..], act);
    }
  }

  lemma FailedAtLast(s: System, acts: seq<Action>, act: Action, id: nat)
    ensures (exists k :: FailedAt(s, acts + [act], id, k)) <==>
              || (exists k :: FailedAt(s, acts, id, k))
              || (act.Answer? && Turns(Run(s, acts), Run(s, acts + [act]), id))
  {
    hide Run, Turns;
    var all, n := acts + [act], |acts|;
    assert all[..n] == acts && all[..n + 1] == all;
    assert FailedAt(s, all, id, n) <==> act.Answer? && Turns(Run(s, acts), Run(s, all), id);
    forall k | 0 <= k < n
      ensures FailedAt(s, all, id, k) <==> FailedAt(s, acts, id, k)
    {
      assert all[..k] == acts[..k] && all[..k + 1] == acts[..k + 1];
    }
  }

  lemma {:induction false} RecordedIff(s: System, acts: seq<Action>, id: nat)
    requires Initial(s) && FairRun(s, acts)
    ensures id in Run(s, acts).failedByPass <==> exists k :: FailedAt(s, acts, id, k)
    decreases |acts|
  {
    if acts != [] {
      var n := |acts| - 1;
      var before := acts[..n];
      assert acts == before + [acts[n]];
      FairPrefix(s, before, acts[n]);
      RecordedIff(s, before, id);
      RunKeepsInv(s, before);
      hide *;
      AnswerRecords(Run(s, before), acts[n], id);
      RunAppend(s, before, acts[n]);
      FailedAtLast(s, before, acts[n], id);
    }
  }

  /**
   Over every fair run, a task is refunded, owed its refund, or lost to a cut exactly when some
   answer turned it into a failure and it had a quota.
   */
  lemma NoRefundForgotten(s: System, acts: seq<Action>, id: nat)
    requires Initial(s) && FairRun(s, acts)
    ensures var s' := Run(s, acts);
            (exists k :: FailedAt(s, acts, id, k)) <==>
              id in s'.refunds || id in s'.lost || exists p :: p in s'.passes && s'.passes[p].owed == Some(id)
  {
    RecordedIff(s, acts, id);
    RunKeepsInv(s, acts);
    var s' := Run(s, acts);
    hide Run, FairRun, IsFailure, IsDone, PaidTo, FailedAt, CreditOk, CopiesOk, FailuresAreDone;
    if p :| p in s'.passes && s'.passes[p].owed == Some(id) {
      assert Owes(s', p, id);
    }
    if id in s'.failedByPass && id !in s'.refunds && id !in s'.lost {
      var p :| Owes(s', p, id);
      assert p in s'.passes && s'.passes[p].owed == Some(id);
    }
  }

  /** A failed row stays failed, and is only paid back if the refund was already owed. */
  ghost predicate Settled(s: System, id: nat) {
    id < |s.rows| && IsFailure(s.rows[id].content)
  }

  /** A pass that has not answered for a failed row loses the swap on it. */
  lemma AnswerKeepsSettled(s: System, p: nat, mjId: MjId, d: Decision, id: nat)
    requires Settled(s, id) && p in s.passes && mjId in s.passes[p].copies
    requires var copy := s.passes[p].copies[mjId]; copy.id == id ==> !IsFailure(copy.row.content)
    ensures Settled(Apply(s, p, mjId, d), id)
    ensures id in Apply(s, p, mjId, d).failedByPass <==> id in s.failedByPass
  {
  }

  lemma NextKeepsSettled(s: System, act: Action, id: nat)
    requires Inv(s) && Fair(s, act) && Settled(s, id)
    ensures Settled(Next(s, act), id)
    ensures id in Next(s, act).failedByPass <==> id in s.failedByPass
  {
    if act.Answer? && act.pass in s.passes && act.mjId in s.passes[act.pass].copies {
      assert CopyOk(s, s.passes[act.pass].copies[act.mjId], act.mjId in s.passes[act.pass].answered);
      hide Inv, Decide, Apply;
      AnswerKeepsSettled(s, act.pass, act.mjId, Decide(s.passes[act.pass].copies[act.mjId].row, act.answer, act.nowMs),
          id);
    } else {
      hide Inv;
    }
  }

  lemma {:induction false} UnrecordedStaysSo(s: System, acts: seq<Action>, id: nat)
    requires Inv(s) && FairRun(s, acts) && Settled(s, id) && id !in s.failedByPass
    ensures id !in Run(s, acts).refunds && Settled(Run(s, acts), id)
    decreases |acts|
  {
    if acts != [] {
      NextKeepsInv(s, acts[0]);
      NextKeepsSettled(s, acts[0], id);
      hide Inv, Next, Fair, Settled;
      UnrecordedStaysSo(Next(s, acts[0]), acts[1..], id);
    }
  }

  /** A task that was not failed yet and is failed in bulk stays failed and is never refunded. */
  lemma BulkFailureIsNotRefunded(s: System, ids: set<nat>, acts: seq<Action>, id: nat)
    requires Inv(s) && id < |s.rows| && id in ids && s.rows[id].content.status != "FAILURE"
    requires FairRun(Next(s, BulkFail(ids)), acts)
    ensures var s' := Run(Next(s, BulkFail(ids)), acts);
            id !in s'.refunds && id < |s'.rows| && s'.rows[id].content.status == "FAILURE"
  {
    BulkFailKeepsInv(s, ids);
    assert id !in s.failedByPass;
    UnrecordedStaysSo(Next(s, BulkFail(ids)), acts, id);
  }

  // ---------------------------------------------------------------------------
  // What goes wrong otherwise
  // ---------------------------------------------------------------------------

  lemma {:induction false} RunAppend(s: System, acts: seq<Action>, act: Action)
    ensures Run(s, acts + [act]) == Next(Run(s, acts), act)
    decreases |acts|
  {
    hide Next;
    if acts == [] {
      assert Run(Next(s, act), []) == Next(s, act);
    } else {
      assert (acts + [act])[1..] == acts[1..] + [act];
      RunAppend(Next(s, acts[0]), acts[1..], act);
    }
  }

  /** One unfinished row with a quota, and nobody polling. */
  ghost predicate OneTask(s: System) {
    && |s.rows| == 1 && s.passes == map[] && s.refunds == []
    && !IsDone(s.rows[0].content) && s.rows[0].mjId != MjId("") && s.rows[0].quota != 0
  }

  /** A failing answer that a pass would act on. */
  predicate Failing(row: Row, answer: Reply, nowMs: int) {
    var d := Decide(row, answer, nowMs); d.Write? && d.refund
  }

  lemma LoadOne(s: System, p: nat)
    requires |s.rows| == 1 && p !in s.passes && !IsDone(s.rows[0].content) && s.rows[0].mjId != MjId("")
    ensures Next(s, Load(p)) == s.(passes := s.passes[p := Pass(map[s.rows[0].mjId := Copy(0, s.rows[0])], {}, None)])
  {
    assert LoadCopies(s.rows, 0) == map[];
    assert LoadCopies(s.rows, 1) == map[s.rows[0].mjId := Copy(0, s.rows[0])];
  }

  /** What the pass makes of its copy. */
  function Written(row: Row, answer: Reply, nowMs: int): Row {
    var d := Decide(row, answer, nowMs); if d.Write? then d.row else row
  }

  /** An answer and its payment by a pass that holds a copy of the only row. */
  lemma AnswerAndPay(s: System, p: nat, answer: Reply, nowMs: int)
    requires |s.rows| == 1 && p in s.passes && s.passes[p].owed.None?
    requires s.rows[0].mjId in s.passes[p].copies && s.passes[p].copies[s.rows[0].mjId].id == 0
    ensures var m, copy := s.rows[0].mjId, s.passes[p].copies[s.rows[0].mjId];
            var s' := Next(Next(s, Answer(p, m, answer, nowMs)), PayBack(p));
            var wins := s.rows[0].content.status == copy.row.content.status;
            && s'.refunds == s.refunds + (if wins && Failing(copy.row, answer, nowMs) then [0] else [])
            && s'.rows == (if wins && Decide(copy.row, answer, nowMs).Write?
                           then [Written(copy.row, answer, nowMs)] else s.rows)
            && s'.passes.Keys == s.passes.Keys && (forall q :: q in s.passes && q != p ==> s'.passes[q] == s.passes[q])
            && s'.passes[p].owed.None? && m in s'.passes[p].copies
            && s'.passes[p].copies[m] == Copy(0, Written(copy.row, answer, nowMs))
  {
    hide Decide;
  }

  lemma WrittenStatus(row: Row, answer: Reply, nowMs: int)
    requires Failing(row, answer, nowMs)
    ensures Written(row, answer, nowMs).content.status == WithTimeout(row, answer, nowMs).content.status
    ensures Written(row, answer, nowMs).mjId == row.mjId
  {
  }

  /**
   Two passes that loaded the same task and got the same failing answer both pay
   exactly when that answer leaves the status as it was: the compare-and-swap is on
   the status alone.
   */
  lemma TwoPassesPayTwiceIff(s: System, answer: Reply, nowMs: int)
    requires OneTask(s) && Failing(s.rows[0], answer, nowMs)
    ensures var m := s.rows[0].mjId;
            var acts := [Load(0), Load(1), Answer(0, m, answer, nowMs), PayBack(0), Answer(1, m, answer, nowMs),
                PayBack(1)];
            var status := WithTimeout(s.rows[0], answer, nowMs).content.status;
            Run(s, acts).refunds == if status == s.rows[0].content.status then [0, 0] else [0]
  {
    var row, m := s.rows[0], s.rows[0].mjId;
    var acts := [Load(0), Load(1), Answer(0, m, answer, nowMs), PayBack(0), Answer(1, m, answer, nowMs), PayBack(1)];
    var s1 := Next(s, Load(0));
    var s2 := Next(s1, Load(1));
    LoadOne(s, 0);
    LoadOne(s1, 1);
    WrittenStatus(row, answer, nowMs);
    var s4 := Next(Next(s2, Answer(0, m, answer, nowMs)), PayBack(0));
    AnswerAndPay(s2, 0, answer, nowMs);
    assert s4.rows == [Written(row, answer, nowMs)];
    assert s4.passes[1] == s2.passes[1];
    hide Decide, Next;
    AnswerAndPay(s4, 1, answer, nowMs);
    RunSteps(s, acts);
  }

  /** A run ends with its last step. */
  lemma RunLast(s: System, acts: seq<Action>)
    requires acts != []
    ensures Run(s, acts) == Next(Run(s, acts[..|acts| - 1]), acts[|acts| - 1])
  {
    hide Next, Run;
    var n := |acts| - 1;
    RunAppend(s, acts[..n], acts[n]);
    assert acts == acts[..n] + [acts[n]];
  }

  /** A run of five or six steps, written out. */
  lemma RunSteps(s: System, acts: seq<Action>)
    requires 5 <= |acts| <= 6
    ensures var s5 := Next(Next(Next(Next(Next(s, acts[0]), acts[1]), acts[2]), acts[3]), acts[4]);
            Run(s, acts) == if |acts| == 5 then s5 else Next(s5, acts[5])
  {
    hide Next;
    RunLast(s, acts[..5]);
    RunLast(s, acts[..4]);
    RunLast(s, acts[..3]);
    RunLast(s, acts[..2]);
    RunLast(s, acts[..1]);
    assert acts[..5][..4] == acts[..4] && acts[..4][..3] == acts[..3] && acts[..3][..2] == acts[..2]
        && acts[..2][..1] == acts[..1];
    assert acts[..1][..0] == [] && Run(s, []) == s;
    if |acts| == 5 {
      assert acts[..5] == acts;
    } else {
      RunLast(s, acts);
    }
  }

  /**
   Of two answers for one task in one pass, the second is paid as well exactly when it is
   failing on the row the first one wrote: the pass swaps on its own last write.
   */
  lemma RepeatedAnswerPaidIff(s: System, first: Reply, second: Reply, nowMs: int)
    requires OneTask(s) && Failing(s.rows[0], first, nowMs)
    ensures var m := s.rows[0].mjId;
            var acts := [Load(0), Answer(0, m, first, nowMs), PayBack(0), Answer(0, m, second, nowMs), PayBack(0)];
            Run(s, acts).refunds == if Failing(Written(s.rows[0], first, nowMs), second, nowMs) then [0, 0] else [0]
  {
    var row, m := s.rows[0], s.rows[0].mjId;
    var acts := [Load(0), Answer(0, m, first, nowMs), PayBack(0), Answer(0, m, second, nowMs), PayBack(0)];
    var s1 := Next(s, Load(0));
    LoadOne(s, 0);
    WrittenStatus(row, first, nowMs);
    var s3 := Next(Next(s1, Answer(0, m, first, nowMs)), PayBack(0));
    AnswerAndPay(s1, 0, first, nowMs);
    assert s3.rows == [Written(row, first, nowMs)];
    hide Decide, Next;
    AnswerAndPay(s3, 0, second, nowMs);
    RunSteps(s, acts);
  }
}
