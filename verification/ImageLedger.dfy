/**
 Billing of asynchronous image tasks (model/async_image.go).

 Creating a task reserves money from a wallet or a subscription and quota from
 an access token. Later the reservation is raised, settled at the actual price or
 refunded. Every operation is one database transaction: it commits as a whole or
 leaves all rows alone. The ledger theorems hold for every sequence of
 transactions, so for every interleaving of submitters and workers.
 */
module ImageLedger {

  datatype Option<T> = None | Some(value: T)

  datatype Billing = Reserved | Settled | Refunded
  datatype Status = Queued | Running | Succeeded | Failed
  datatype Output = Pending | Archiving | OutputFailed
  datatype Source = Wallet | Subscription(id: int)

  datatype Task = Task(
    user: int,
    token: int,
    tokenUnlimited: bool,
    source: Source,
    reserved: int,
    tokenReserved: int,
    actual: int,
    billing: Billing,
    status: Status,
    output: Output,
    lease: string)

  /** `total == 0` means the subscription has no limit. */
  datatype Sub = Sub(total: int, used: int)
  datatype Token = Token(owner: int, remain: int, used: int)

  /** Everything money can be booked on. */
  datatype Account = WalletOf(user: int) | SubscriptionOf(id: int) | TokenOf(id: int)

  /**
   The rows, plus what the rest of the system booked on each account: deposits
   into a wallet, consumption of a subscription or token outside these tasks.
   */
  datatype State = State(
    wallets: map<int, int>,
    subs: map<int, Sub>,
    tokens: map<int, Token>,
    tasks: seq<Task>,
    external: map<Account, int>)

  // ---------------------------------------------------------------------------
  // The transactions
  // ---------------------------------------------------------------------------

  function AdjustFunding(s: State, task: Task, delta: int): (r: Option<State>)
    ensures r.Some? ==> r.value.tasks == s.tasks
  {
    if delta == 0 then Some(s)
    else if task.source.Subscription? then
      if task.source.id !in s.subs then None
      else
        var sub := s.subs[task.source.id];
        var used := sub.used + delta;
        if used < 0 || (sub.total > 0 && used > sub.total) then None
        else Some(s.(subs := s.subs[task.source.id := sub.(used := used)]))
    else if task.user !in s.wallets || s.wallets[task.user] - delta < 0 then None
    else Some(s.(wallets := s.wallets[task.user := s.wallets[task.user] - delta]))
  }

  predicate MetersToken(task: Task) {
    !task.tokenUnlimited && task.token > 0
  }

  function AdjustToken(s: State, task: Task, delta: int): (r: Option<State>)
    ensures r.Some? ==> r.value.tasks == s.tasks
  {
    if delta == 0 || !MetersToken(task) then Some(s)
    else if task.token !in s.tokens then None
    else
      var token := s.tokens[task.token];
      if token.remain - delta < 0 || token.used + delta < 0 then None
      else Some(s.(tokens := s.tokens[task.token := token.(remain := token.remain - delta,
                                                           used := token.used + delta)]))
  }

  function AdjustBoth(s: State, task: Task, delta: int, tokenDelta: int): (r: Option<State>)
    ensures r.Some? ==> r.value.tasks == s.tasks
  {
    match AdjustFunding(s, task, delta)
    case None => None
    case Some(funded) => AdjustToken(funded, task, tokenDelta)
  }

  /** One row of the query for active subscriptions, soonest to end first. */
  datatype Candidate = Candidate(id: int, resetDue: bool, overflow: bool)

  function Booked(s: State, account: Account): int {
    if account in s.external then s.external[account] else 0
  }

  /** A period reset zeroes the usage; what was used is written off. */
  function ResetUsage(s: State, id: int): State
    requires id in s.subs
  {
    var used := s.subs[id].used;
    s.(subs := s.subs[id := s.subs[id].(used := 0)],
       external := s.external[SubscriptionOf(id) := Booked(s, SubscriptionOf(id)) - used])
  }

  ghost predicate Listed(s: State, candidates: seq<Candidate>) {
    forall i :: 0 <= i < |candidates| ==> candidates[i].id in s.subs
  }

  /** Walk the candidates; resets made on the way are kept even if none can pay. */
  function TrySubscriptions(s: State, candidates: seq<Candidate>, amount: int): (r: (State, Option<Source>))
    requires Listed(s, candidates)
    ensures r.0.subs.Keys == s.subs.Keys && r.0.tasks == s.tasks
    decreases |candidates|
  {
    if candidates == [] then (s, None)
    else
      var id := candidates[0].id;
      var s1 := if candidates[0].resetDue then ResetUsage(s, id) else s;
      var sub := s1.subs[id];
      if sub.total > 0 && sub.total - sub.used < amount then TrySubscriptions(s1, candidates[1..], amount)
      else (s1.(subs := s1.subs[id := sub.(used := sub.used + amount)]), Some(Subscription(id)))
  }

  function TryWallet(s: State, user: int, amount: int): (r: (State, Option<Source>)) {
    if user !in s.wallets || s.wallets[user] < amount then (s, None)
    else (s.(wallets := s.wallets[user := s.wallets[user] - amount]), Some(Wallet))
  }

  datatype Preference = WalletOnly | SubscriptionOnly | WalletFirst | SubscriptionFirst

  function ReserveFunding(s: State, user: int, amount: int, preference: Preference, candidates: seq<Candidate>)
    : (r: (State, Option<Source>))
    requires Listed(s, candidates)
    ensures r.0.tasks == s.tasks
  {
    match preference
    case WalletOnly => TryWallet(s, user, amount)
    case SubscriptionOnly => TrySubscriptions(s, candidates, amount)
    case WalletFirst =>
      // A missing user row is an error of its own and ends the attempt.
      if user !in s.wallets || s.wallets[user] >= amount then TryWallet(s, user, amount)
      else TrySubscriptions(s, candidates, amount)
    case SubscriptionFirst =>
      var r := TrySubscriptions(s, candidates, amount);
      if r.1.Some? then r
      else if candidates == [] || (exists i :: 0 <= i < |candidates| && candidates[i].overflow)
      then TryWallet(r.0, user, amount)
      else r
  }

  datatype Submission = Submission(user: int, token: int, tokenUnlimited: bool, reserved: int, tokenReserved: int)

  function NewTask(sub: Submission, source: Source): Task {
    Task(sub.user, sub.token, sub.tokenUnlimited, source, sub.reserved, sub.tokenReserved,
         0, Reserved, Queued, Pending, "")
  }

  /** The second half of a submission: charge the token and insert the row. */
  function InsertTask(s: State, sub: Submission, source: Source): Option<State> {
    var task := NewTask(sub, source);
    if sub.tokenReserved > 0 && MetersToken(task) then
      if sub.token !in s.tokens then None
      else
        var token := s.tokens[sub.token];
        if token.owner != sub.user || token.remain < sub.tokenReserved then None
        else
          var charged := token.(remain := token.remain - sub.tokenReserved, used := token.used + sub.tokenReserved);
          Some(s.(tokens := s.tokens[sub.token := charged], tasks := s.tasks + [task]))
    else Some(s.(tasks := s.tasks + [task]))
  }

  /** The transaction of a submission; `None` rolls everything back. */
  function Create(s: State, sub: Submission, preference: Preference, candidates: seq<Candidate>): (r: Option<State>)
    requires Listed(s, candidates)
    ensures r.Some? ==> |r.value.tasks| == |s.tasks| + 1 && s.tasks <= r.value.tasks
  {
    if sub.reserved < 0 || sub.tokenReserved < 0 then None
    else
      var funding := if sub.reserved > 0 then ReserveFunding(s, sub.user, sub.reserved, preference, candidates)
                     else (s, Some(Wallet));
      if funding.1.None? then None
      else InsertTask(funding.0, sub, funding.1.value)
  }

  function RaiseReservation(s: State, id: nat, target: int): Option<State> {
    if target < 0 || id >= |s.tasks| then None
    else
      var task := s.tasks[id];
      if task.billing != Reserved || target <= task.reserved then Some(s)
      else
        var tokenTarget := if task.tokenUnlimited then 0 else target;
        match AdjustBoth(s, task, target - task.reserved, tokenTarget - task.tokenReserved)
        case None => None
        case Some(s1) => Some(s1.(tasks := s1.tasks[id := task.(reserved := target, tokenReserved := tokenTarget)]))
  }

  /** The money side shared by the three ways to settle. */
  function SettleRows(s: State, id: nat, actual: int): (r: Option<State>)
    requires id < |s.tasks|
    ensures r.Some? ==> r.value.tasks == s.tasks
  {
    var task := s.tasks[id];
    var tokenActual := if task.tokenUnlimited then 0 else actual;
    AdjustBoth(s, task, actual - task.reserved, tokenActual - task.tokenReserved)
  }

  /** The lease filter of the row query; an empty owner matches any row. */
  predicate HoldsLease(task: Task, owner: string) {
    owner == "" || task.lease == owner
  }

  /** `manifest`: there is one, with storage objects; `named`: every storage object names its business. */
  function Complete(s: State, id: nat, owner: string, actual: int, manifest: bool, named: bool): Option<State> {
    if actual < 0 || !manifest || id >= |s.tasks| || !HoldsLease(s.tasks[id], owner) then None
    else
      var task := s.tasks[id];
      if task.billing == Settled then Some(s)
      else if task.billing == Refunded || task.status != Running then None
      else
        match SettleRows(s, id, actual)
        case None => None
        case Some(s1) =>
          if !named then None
          else Some(s1.(tasks := s1.tasks[id := task.(actual := actual, billing := Settled,
                                                      status := Succeeded, output := Archiving)]))
  }

  function CompleteWithArchiveFailure(s: State, id: nat, owner: string, actual: int): Option<State> {
    if actual < 0 || id >= |s.tasks| || !HoldsLease(s.tasks[id], owner) then None
    else
      var task := s.tasks[id];
      if task.billing == Settled then Some(s)
      else if task.billing == Refunded then None
      else
        match SettleRows(s, id, actual)
        case None => None
        case Some(s1) =>
          Some(s1.(tasks := s1.tasks[id := task.(actual := actual, billing := Settled,
                                                 status := Succeeded, output := OutputFailed, lease := "")]))
  }

  function SettleOnly(s: State, id: nat, actual: int): Option<State> {
    if actual < 0 || id >= |s.tasks| then None
    else
      var task := s.tasks[id];
      if task.billing == Settled then Some(s)
      else if task.billing == Refunded then None
      else
        match SettleRows(s, id, actual)
        case None => None
        case Some(s1) => Some(s1.(tasks := s1.tasks[id := task.(actual := actual, billing := Settled)]))
  }

  /** A refund is not tied to the lease. */
  function Refund(s: State, id: nat): Option<State> {
    if id >= |s.tasks| then None
    else
      var task := s.tasks[id];
      if task.billing == Refunded then Some(s)
      else if task.billing == Settled then None
      else
        match AdjustBoth(s, task, -task.reserved, -task.tokenReserved)
        case None => None
        case Some(s1) =>
          Some(s1.(tasks := s1.tasks[id := task.(status := Failed, output := OutputFailed,
                                                 billing := Refunded, lease := "")]))
  }

  /** A worker takes a runnable task; `free` is the lease test at the current time. */
  function Claim(s: State, id: nat, owner: string, free: bool): Option<State> {
    if owner == "" || id >= |s.tasks| || !free then None
    else Some(s.(tasks := s.tasks[id := s.tasks[id].(lease := owner)]))
  }

  function MarkRunning(s: State, id: nat, owner: string): Option<State> {
    if id >= |s.tasks| then None
    else
      var task := s.tasks[id];
      if task.lease != owner || task.status !in {Queued, Running} || task.billing != Reserved then None
      else Some(s.(tasks := s.tasks[id := task.(status := Running)]))
  }

  // ---------------------------------------------------------------------------
  // Runs
  // ---------------------------------------------------------------------------

  datatype Op =
    | DoCreate(sub: Submission, preference: Preference, candidates: seq<Candidate>)
    | DoRaise(id: nat, target: int)
    | DoComplete(id: nat, owner: string, actual: int, manifest: bool, named: bool)
    | DoCompleteFailed(id: nat, owner: string, actual: int)
    | DoSettle(id: nat, actual: int)
    | DoRefund(id: nat)
    | DoClaim(id: nat, owner: string, free: bool)
    | DoMarkRunning(id: nat, owner: string)
    // The rest of the system: deposits, other consumption, a period reset, a token its user deletes.
    | Deposit(user: int, amount: int)
    | OtherUse(subscription: int, amount: int)
    | OtherTokenUse(token: int, amount: int)
    | PeriodReset(subscription: int)
    | DeleteToken(token: int)

  function Transaction(s: State, op: Op): Option<State> {
    match op
    case DoCreate(sub, preference, candidates) =>
      if forall i :: 0 <= i < |candidates| ==> candidates[i].id in s.subs
      then Create(s, sub, preference, candidates) else None
    case DoRaise(id, target) => RaiseReservation(s, id, target)
    case DoComplete(id, owner, actual, manifest, named) => Complete(s, id, owner, actual, manifest, named)
    case DoCompleteFailed(id, owner, actual) => CompleteWithArchiveFailure(s, id, owner, actual)
    case DoSettle(id, actual) => SettleOnly(s, id, actual)
    case DoRefund(id) => Refund(s, id)
    case DoClaim(id, owner, free) => Claim(s, id, owner, free)
    case DoMarkRunning(id, owner) => MarkRunning(s, id, owner)
    case Deposit(user, amount) =>
      if user !in s.wallets then None
      else Some(s.(wallets := s.wallets[user := s.wallets[user] + amount],
                   external := s.external[WalletOf(user) := Booked(s, WalletOf(user)) + amount]))
    case OtherUse(id, amount) =>
      if id !in s.subs then None
      else Some(s.(subs := s.subs[id := s.subs[id].(used := s.subs[id].used + amount)],
                   external := s.external[SubscriptionOf(id) := Booked(s, SubscriptionOf(id)) + amount]))
    case OtherTokenUse(id, amount) =>
      if id !in s.tokens then None
      else Some(s.(tokens := s.tokens[id := s.tokens[id].(remain := s.tokens[id].remain - amount,
                                                          used := s.tokens[id].used + amount)],
                   external := s.external[TokenOf(id) := Booked(s, TokenOf(id)) + amount]))
    case PeriodReset(id) => if id !in s.subs then None else Some(ResetUsage(s, id))
    case DeleteToken(id) => if id !in s.tokens then None else Some(Forget(s, id))
  }

  /** A deleted token is not found any more; what it had used is written off. */
  function Forget(s: State, id: int): State
    requires id in s.tokens
  {
    s.(tokens := s.tokens - {id},
       external := s.external[TokenOf(id) := Booked(s, TokenOf(id)) - s.tokens[id].used])
  }

  function Step(s: State, op: Op): State {
    match Transaction(s, op)
    case None => s
    case Some(s') => s'
  }

  function Run(s: State, ops: seq<Op>): State
    decreases |ops|
  {
    if ops == [] then s else Run(Step(s, ops[0]), ops[1..])
  }

  // ---------------------------------------------------------------------------
  // The ledger
  // ---------------------------------------------------------------------------

  /** What a task currently costs its payer. */
  function Held(task: Task): int {
    match task.billing
    case Reserved => task.reserved
    case Settled => task.actual
    case Refunded => 0
  }

  function TokenHeld(task: Task): int {
    match task.billing
    case Reserved => task.tokenReserved
    case Settled => task.actual
    case Refunded => 0
  }

  function Payer(task: Task): Account {
    if task.source.Subscription? then SubscriptionOf(task.source.id) else WalletOf(task.user)
  }

  /** What a task has booked on an account. */
  function Charge(task: Task, account: Account): int {
    (if account == Payer(task) then Held(task) else 0)
    + (if MetersToken(task) && account == TokenOf(task.token) then TokenHeld(task) else 0)
  }

  function TotalCharge(tasks: seq<Task>, account: Account): int {
    if tasks == [] then 0
    else TotalCharge(tasks[..|tasks| - 1], account) + Charge(tasks[|tasks| - 1], account)
  }

  /** What the rows say the tasks have taken from an account. */
  function Taken(s: State, account: Account): int {
    match account
    case WalletOf(user) => Booked(s, account) - (if user in s.wallets then s.wallets[user] else 0)
    case SubscriptionOf(id) => (if id in s.subs then s.subs[id].used else 0) - Booked(s, account)
    case TokenOf(id) => (if id in s.tokens then s.tokens[id].used else 0) - Booked(s, account)
  }

  ghost predicate WellFormed(task: Task) {
    && task.reserved >= 0 && task.tokenReserved >= 0 && task.actual >= 0
    && (task.status == Failed <==> task.billing == Refunded)
    && (task.status == Succeeded ==> task.billing == Settled)
    && (task.output == Archiving ==> task.status == Succeeded)
  }

  ghost predicate Balanced(s: State) {
    forall account :: Taken(s, account) == TotalCharge(s.tasks, account)
  }

  ghost predicate Inv(s: State) {
    && Balanced(s)
    && forall i :: 0 <= i < |s.tasks| ==> WellFormed(s.tasks[i])
  }

  /** The token's quota is only moved between `remain` and `used`. */
  ghost predicate SameTokenFunds(s: State, s': State) {
    && s'.tokens.Keys == s.tokens.Keys
    && forall id :: id in s.tokens ==>
        s'.tokens[id].remain + s'.tokens[id].used == s.tokens[id].remain + s.tokens[id].used
  }

  /** The same for the tokens that are left. */
  ghost predicate TokenFundsKept(s: State, s': State) {
    && s'.tokens.Keys <= s.tokens.Keys
    && forall id :: id in s'.tokens ==>
        s'.tokens[id].remain + s'.tokens[id].used == s.tokens[id].remain + s.tokens[id].used
  }

  lemma TokenFundsStay(s: State)
    ensures SameTokenFunds(s, s) && TokenFundsKept(s, s)
  {
  }

  lemma SameFundsAreKept(s: State, s': State)
    requires SameTokenFunds(s, s')
    ensures TokenFundsKept(s, s')
  {
  }

  lemma {:induction false} TotalAppend(tasks: seq<Task>, task: Task, account: Account)
    ensures TotalCharge(tasks + [task], account) == TotalCharge(tasks, account) + Charge(task, account)
  {
    assert (tasks + [task])[..|tasks|] == tasks;
  }

  lemma {:induction false} TotalUpdate(tasks: seq<Task>, id: nat, task: Task, account: Account)
    requires id < |tasks|
    ensures TotalCharge(tasks[id := task], account)
         == TotalCharge(tasks, account) - Charge(tasks[id], account) + Charge(task, account)
  {
    var n := |tasks| - 1;
    if id < n {
      TotalUpdate(tasks[..n], id, task, account);
      assert tasks[id := task][..n] == tasks[..n][id := task];
    } else {
      assert tasks[id := task][..n] == tasks[..n];
    }
  }

  lemma FundingAdjusts(s: State, task: Task, delta: int, account: Account)
    requires AdjustFunding(s, task, delta).Some?
    ensures var s' := AdjustFunding(s, task, delta).value;
            && s'.tokens == s.tokens
            && Taken(s', account) == Taken(s, account) + (if account == Payer(task) then delta else 0)
  {
  }

  lemma TokenAdjusts(s: State, task: Task, delta: int, account: Account)
    requires AdjustToken(s, task, delta).Some?
    ensures var s' := AdjustToken(s, task, delta).value;
            && SameTokenFunds(s, s')
            && Taken(s', account) == Taken(s, account)
                 + (if MetersToken(task) && account == TokenOf(task.token) then delta else 0)
  {
  }

  /** An adjustment books its two amounts on the payer and the token, and nothing else. */
  lemma AdjustBooks(s: State, task: Task, delta: int, tokenDelta: int, account: Account)
    requires AdjustBoth(s, task, delta, tokenDelta).Some?
    ensures var s' := AdjustBoth(s, task, delta, tokenDelta).value;
            && SameTokenFunds(s, s')
            && Taken(s', account) == Taken(s, account)
                 + (if account == Payer(task) then delta else 0)
                 + (if MetersToken(task) && account == TokenOf(task.token) then tokenDelta else 0)
  {
    hide AdjustFunding, AdjustToken, Taken, Payer, MetersToken;
    FundingAdjusts(s, task, delta, account);
    TokenAdjusts(AdjustFunding(s, task, delta).value, task, tokenDelta, account);
  }

  lemma TakenIgnoresTasks(s: State, tasks: seq<Task>, account: Account)
    ensures Taken(s.(tasks := tasks), account) == Taken(s, account)
  {
  }

  /** `task` replaces row `id` and its charge moves by the two amounts. */
  ghost predicate Rebooks(s: State, id: nat, task: Task, delta: int, tokenDelta: int) {
    && id < |s.tasks|
    && Payer(task) == Payer(s.tasks[id]) && task.token == s.tasks[id].token
    && task.tokenUnlimited == s.tasks[id].tokenUnlimited
    && Held(task) == Held(s.tasks[id]) + delta
    && (MetersToken(task) ==> TokenHeld(task) == TokenHeld(s.tasks[id]) + tokenDelta)
  }

  lemma RebookCharge(s: State, id: nat, task: Task, delta: int, tokenDelta: int, account: Account)
    requires Rebooks(s, id, task, delta, tokenDelta)
    ensures Charge(task, account) == Charge(s.tasks[id], account)
              + (if account == Payer(s.tasks[id]) then delta else 0)
              + (if MetersToken(s.tasks[id]) && account == TokenOf(s.tasks[id].token) then tokenDelta else 0)
  {
  }

  /** The books stay balanced when rows and charge move together. */
  lemma RebookKeepsBalance(s: State, id: nat, task: Task, s1: State, delta: int, tokenDelta: int)
    requires Balanced(s) && Rebooks(s, id, task, delta, tokenDelta)
    requires AdjustBoth(s, s.tasks[id], delta, tokenDelta) == Some(s1)
    ensures Balanced(s1.(tasks := s1.tasks[id := task]))
    ensures SameTokenFunds(s, s1.(tasks := s1.tasks[id := task]))
  {
    var s' := s1.(tasks := s1.tasks[id := task]);
    AdjustBooks(s, s.tasks[id], delta, tokenDelta, Payer(task));
    forall account
      ensures Taken(s', account) == TotalCharge(s'.tasks, account)
    {
      hide Taken, TotalCharge, Charge, AdjustBoth, Payer, MetersToken;
      AdjustBooks(s, s.tasks[id], delta, tokenDelta, account);
      RebookCharge(s, id, task, delta, tokenDelta, account);
      TotalUpdate(s.tasks, id, task, account);
      TakenIgnoresTasks(s1, s'.tasks, account);
    }
  }

  /** Changing only the progress of a task moves no money. */
  lemma ProgressKeepsBalance(s: State, id: nat, task: Task)
    requires Balanced(s) && id < |s.tasks|
    requires forall account :: Charge(task, account) == Charge(s.tasks[id], account)
    ensures Balanced(s.(tasks := s.tasks[id := task]))
  {
    var s' := s.(tasks := s.tasks[id := task]);
    forall account
      ensures Taken(s', account) == TotalCharge(s'.tasks, account)
    {
      hide Taken, TotalCharge, Charge;
      TotalUpdate(s.tasks, id, task, account);
      TakenIgnoresTasks(s, s'.tasks, account);
    }
  }

  /** A write-off takes usage off the counter and off the books alike. */
  lemma ResetBooks(s: State, id: int, account: Account)
    requires id in s.subs
    ensures Taken(ResetUsage(s, id), account) == Taken(s, account)
    ensures ResetUsage(s, id).wallets == s.wallets && ResetUsage(s, id).tokens == s.tokens
    ensures ResetUsage(s, id).subs.Keys == s.subs.Keys && ResetUsage(s, id).tasks == s.tasks
  {
  }

  lemma UsageBooks(s: State, id: int, amount: int, account: Account)
    requires id in s.subs
    ensures Taken(s.(subs := s.subs[id := s.subs[id].(used := s.subs[id].used + amount)]), account)
         == Taken(s, account) + (if account == SubscriptionOf(id) then amount else 0)
  {
  }

  lemma {:induction false} SubscriptionsBook(s: State, candidates: seq<Candidate>, amount: int, account: Account)
    requires Listed(s, candidates)
    ensures var (s', source) := TrySubscriptions(s, candidates, amount);
            && s'.wallets == s.wallets && s'.tokens == s.tokens
            && (source.Some? ==> source.value.Subscription?)
            && Taken(s', account) == Taken(s, account)
                 + (if source.Some? && account == SubscriptionOf(source.value.id) then amount else 0)
    decreases |candidates|
  {
    if candidates != [] {
      hide Taken, ResetUsage;
      var id := candidates[0].id;
      ResetBooks(s, id, account);
      var s1 := if candidates[0].resetDue then ResetUsage(s, id) else s;
      assert Listed(s1, candidates[1..]) && id in s1.subs;
      if s1.subs[id].total > 0 && s1.subs[id].total - s1.subs[id].used < amount {
        SubscriptionsBook(s1, candidates[1..], amount, account);
      } else {
        UsageBooks(s1, id, amount, account);
      }
    }
  }

  lemma WalletBooks(s: State, user: int, amount: int, account: Account)
    ensures var (s', source) := TryWallet(s, user, amount);
            && s'.tasks == s.tasks && s'.tokens == s.tokens
            && (source.Some? ==> source.value == Wallet)
            && (source.Some? ==>
                Taken(s', account) == Taken(s, account) + (if account == WalletOf(user) then amount else 0))
  {
  }

  lemma FundingBooks(s: State, user: int, amount: int, preference: Preference, candidates: seq<Candidate>,
      account: Account)
    requires Listed(s, candidates)
    ensures var (s', source) := ReserveFunding(s, user, amount, preference, candidates);
            && s'.tokens == s.tokens
            && (source.Some? ==>
                  Taken(s', account) == Taken(s, account)
                    + (if account == (if source.value.Subscription? then SubscriptionOf(source.value.id)
                        else WalletOf(user))
                       then amount else 0))
  {
    hide Taken, TrySubscriptions, TryWallet;
    SubscriptionsBook(s, candidates, amount, account);
    WalletBooks(s, user, amount, account);
    WalletBooks(TrySubscriptions(s, candidates, amount).0, user, amount, account);
  }

  lemma InsertBooks(s: State, sub: Submission, source: Source, account: Account)
    requires sub.tokenReserved >= 0 && InsertTask(s, sub, source).Some?
    ensures var s', task := InsertTask(s, sub, source).value, NewTask(sub, source);
            && s'.tasks == s.tasks + [task] && SameTokenFunds(s, s')
            && Taken(s', account) == Taken(s, account)
                 + (if MetersToken(task) && account == TokenOf(sub.token) then sub.tokenReserved else 0)
  {
  }

  /** A submission books the new task's charge and nothing else. */
  lemma CreateBooks(s: State, sub: Submission, preference: Preference, candidates: seq<Candidate>, account: Account)
    requires Listed(s, candidates) && Create(s, sub, preference, candidates).Some?
    ensures var s' := Create(s, sub, preference, candidates).value;
            && |s'.tasks| == |s.tasks| + 1
            && var task := s'.tasks[|s.tasks|];
               && s'.tasks == s.tasks + [task] && task.billing == Reserved && WellFormed(task) && SameTokenFunds(s, s')
               && Taken(s', account) == Taken(s, account) + Charge(task, account)
  {
    hide ReserveFunding, InsertTask, Taken;
    FundingBooks(s, sub.user, sub.reserved, preference, candidates, account);
    var funding := if sub.reserved > 0 then ReserveFunding(s, sub.user, sub.reserved, preference, candidates)
                   else (s, Some(Wallet));
    InsertBooks(funding.0, sub, funding.1.value, account);
  }

  lemma CreateKeepsInv(s: State, sub: Submission, preference: Preference, candidates: seq<Candidate>)
    requires Inv(s) && Listed(s, candidates) && Create(s, sub, preference, candidates).Some?
    ensures var s' := Create(s, sub, preference, candidates).value; Inv(s') && SameTokenFunds(s, s')
  {
    hide Create, Charge, Taken, SameTokenFunds, WellFormed, TotalCharge;
    var s' := Create(s, sub, preference, candidates).value;
    CreateBooks(s, sub, preference, candidates, WalletOf(sub.user));
    forall account
      ensures Taken(s', account) == TotalCharge(s'.tasks, account)
    {
      CreateBooks(s, sub, preference, candidates, account);
      TotalAppend(s.tasks, s'.tasks[|s.tasks|], account);
    }
  }

  lemma RaiseKeepsInv(s: State, id: nat, target: int)
    requires Inv(s) && RaiseReservation(s, id, target).Some?
    ensures var s' := RaiseReservation(s, id, target).value; Inv(s') && SameTokenFunds(s, s')
  {
    hide Balanced, SameTokenFunds, AdjustBoth;
    var task := s.tasks[id];
    assert SameTokenFunds(s, s) by { TokenFundsStay(s); }
    if task.billing == Reserved && target > task.reserved {
      var tokenTarget := if task.tokenUnlimited then 0 else target;
      var delta, tokenDelta := target - task.reserved, tokenTarget - task.tokenReserved;
      RebookKeepsBalance(s, id, task.(reserved := target, tokenReserved := tokenTarget),
                         AdjustBoth(s, task, delta, tokenDelta).value, delta, tokenDelta);
    }
  }

  /** Any row change that marks a reserved task settled at `actual`. */
  lemma SettleKeepsInv(s: State, id: nat, actual: int, settled: Task)
    requires Inv(s) && id < |s.tasks| && actual >= 0
    requires s.tasks[id].billing == Reserved && SettleRows(s, id, actual).Some?
    requires settled.user == s.tasks[id].user && settled.source == s.tasks[id].source
    requires settled.token == s.tasks[id].token && settled.tokenUnlimited == s.tasks[id].tokenUnlimited
    requires settled.billing == Settled && settled.actual == actual && WellFormed(settled)
    ensures var s1 := SettleRows(s, id, actual).value;
            && |s1.tasks| == |s.tasks|
            && var s' := s1.(tasks := s1.tasks[id := settled]); Inv(s') && SameTokenFunds(s, s')
  {
    var task := s.tasks[id];
    var tokenActual := if task.tokenUnlimited then 0 else actual;
    RebookKeepsBalance(s, id, settled, SettleRows(s, id, actual).value,
                       actual - task.reserved, tokenActual - task.tokenReserved);
  }

  lemma CompletionKeepsInv(s: State, id: nat, owner: string, actual: int, manifest: bool, named: bool)
    requires Inv(s)
    ensures var r := Complete(s, id, owner, actual, manifest, named); r.Some? ==>
        Inv(r.value) && SameTokenFunds(s, r.value)
    ensures var r := CompleteWithArchiveFailure(s, id, owner, actual); r.Some? ==>
        Inv(r.value) && SameTokenFunds(s, r.value)
    ensures var r := SettleOnly(s, id, actual); r.Some? ==> Inv(r.value) && SameTokenFunds(s, r.value)
  {
    if id < |s.tasks| && s.tasks[id].billing == Reserved && actual >= 0 && SettleRows(s, id, actual).Some? {
      var task := s.tasks[id];
      assert WellFormed(task);
      hide Inv, SettleRows, SameTokenFunds;
      SettleKeepsInv(s, id, actual,
          task.(actual := actual, billing := Settled, status := Succeeded, output := Archiving));
      SettleKeepsInv(s, id, actual, task.(actual := actual, billing := Settled, status := Succeeded,
                                          output := OutputFailed, lease := ""));
      SettleKeepsInv(s, id, actual, task.(actual := actual, billing := Settled));
    }
  }

  lemma RefundKeepsInv(s: State, id: nat)
    requires Inv(s) && Refund(s, id).Some?
    ensures var s' := Refund(s, id).value; Inv(s') && SameTokenFunds(s, s')
  {
    hide Balanced, SameTokenFunds, AdjustBoth;
    var task := s.tasks[id];
    assert SameTokenFunds(s, s) by { TokenFundsStay(s); }
    if task.billing == Reserved {
      RebookKeepsBalance(s, id, task.(status := Failed, output := OutputFailed, billing := Refunded, lease := ""),
                         AdjustBoth(s, task, -task.reserved, -task.tokenReserved).value,
                         -task.reserved, -task.tokenReserved);
    }
  }

  lemma ProgressKeepsInv(s: State, id: nat, owner: string, free: bool)
    requires Inv(s)
    ensures var r := Claim(s, id, owner, free); r.Some? ==> Inv(r.value) && SameTokenFunds(s, r.value)
    ensures var r := MarkRunning(s, id, owner); r.Some? ==> Inv(r.value) && SameTokenFunds(s, r.value)
  {
    if id < |s.tasks| {
      ProgressKeepsBalance(s, id, s.tasks[id].(lease := owner));
      ProgressKeepsBalance(s, id, s.tasks[id].(status := Running));
    }
  }

  lemma ExternalBooks(s: State, op: Op, account: Account)
    requires op.Deposit? || op.OtherUse? || op.OtherTokenUse?
    ensures Taken(Step(s, op), account) == Taken(s, account)
    ensures Step(s, op).tasks == s.tasks && SameTokenFunds(s, Step(s, op))
  {
  }

  lemma ExternalKeepsInv(s: State, op: Op)
    requires Inv(s) && (op.Deposit? || op.OtherUse? || op.OtherTokenUse? || op.PeriodReset?)
    ensures Inv(Step(s, op)) && SameTokenFunds(s, Step(s, op))
  {
    var s' := Step(s, op);
    hide Taken, TotalCharge, WellFormed;
    if op.PeriodReset? {
      forall account
        ensures Taken(s', account) == TotalCharge(s'.tasks, account)
      {
        if op.subscription in s.subs {
          ResetBooks(s, op.subscription, account);
        }
      }
    } else {
      hide Step;
      ExternalBooks(s, op, WalletOf(0));
      forall account
        ensures Taken(s', account) == TotalCharge(s'.tasks, account)
      {
        ExternalBooks(s, op, account);
      }
    }
  }

  lemma ForgetBooks(s: State, id: int, account: Account)
    requires id in s.tokens
    ensures Taken(Forget(s, id), account) == Taken(s, account)
  {
  }

  lemma ForgetKeepsInv(s: State, id: int)
    requires Inv(s) && id in s.tokens
    ensures Inv(Forget(s, id)) && TokenFundsKept(s, Forget(s, id))
  {
    var s' := Forget(s, id);
    hide Taken, TotalCharge, WellFormed;
    forall account
      ensures Taken(s', account) == TotalCharge(s'.tasks, account)
    {
      ForgetBooks(s, id, account);
    }
  }

  /** Every transaction keeps the books. */
  lemma StepKeepsInv(s: State, op: Op)
    requires Inv(s)
    ensures Inv(Step(s, op)) && TokenFundsKept(s, Step(s, op))
    ensures !op.DeleteToken? ==> SameTokenFunds(s, Step(s, op))
  {
    hide Inv, SameTokenFunds, TokenFundsKept;
    if op.DeleteToken? && op.token in s.tokens {
      ForgetKeepsInv(s, op.token);
    } else {
      OrdinaryStepKeepsInv(s, op);
      SameFundsAreKept(s, Step(s, op));
    }
  }

  lemma OrdinaryStepKeepsInv(s: State, op: Op)
    requires Inv(s) && (op.DeleteToken? ==> op.token !in s.tokens)
    ensures Inv(Step(s, op)) && SameTokenFunds(s, Step(s, op))
  {
    hide Inv, SameTokenFunds;
    TokenFundsStay(s);
    if Transaction(s, op).Some? {
      match op
      case DoCreate(sub, preference, candidates) => CreateKeepsInv(s, sub, preference, candidates);
      case DoRaise(id, target) => RaiseKeepsInv(s, id, target);
      case DoComplete(id, owner, actual, manifest, named) => CompletionKeepsInv(s, id, owner, actual, manifest, named);
      case DoCompleteFailed(id, owner, actual) => CompletionKeepsInv(s, id, owner, actual, true, true);
      case DoSettle(id, actual) => CompletionKeepsInv(s, id, "", actual, true, true);
      case DoRefund(id) => RefundKeepsInv(s, id);
      case DoClaim(id, owner, free) => ProgressKeepsInv(s, id, owner, free);
      case DoMarkRunning(id, owner) => ProgressKeepsInv(s, id, owner, true);
      case Deposit(_, _) => ExternalKeepsInv(s, op);
      case OtherUse(_, _) => ExternalKeepsInv(s, op);
      case OtherTokenUse(_, _) => ExternalKeepsInv(s, op);
      case PeriodReset(_) => ExternalKeepsInv(s, op);
      case DeleteToken(_) => assert false;
    }
  }

  /** In every reachable state each account shows exactly what its tasks cost. */
  lemma {:induction false} LedgerBalances(s: State, ops: seq<Op>)
    requires Inv(s)
    ensures Inv(Run(s, ops)) && TokenFundsKept(s, Run(s, ops))
    ensures (forall i :: 0 <= i < |ops| ==> !ops[i].DeleteToken?) ==> SameTokenFunds(s, Run(s, ops))
    decreases |ops|
  {
    if ops == [] {
      TokenFundsStay(s);
    } else {
      hide Step, Inv;
      assert (forall i :: 0 <= i < |ops| ==> !ops[i].DeleteToken?) ==> !ops[0].DeleteToken?;
      StepKeepsInv(s, ops[0]);
      LedgerBalances(Step(s, ops[0]), ops[1..]);
    }
  }

  /** No task yet; a wallet holds what was deposited and the counters what others used. */
  ghost predicate Opening(s: State) {
    s.tasks == [] && forall account :: Taken(s, account) == 0
  }

  /** The balance of a wallet after any run: its deposits less what its tasks cost now. */
  lemma WalletExplained(s: State, ops: seq<Op>, user: int)
    requires Opening(s)
    ensures var s' := Run(s, ops);
            user in s'.wallets ==>
                s'.wallets[user] == Booked(s', WalletOf(user)) - TotalCharge(s'.tasks, WalletOf(user))
  {
    LedgerBalances(s, ops);
    assert Taken(Run(s, ops), WalletOf(user)) == TotalCharge(Run(s, ops).tasks, WalletOf(user));
  }

  // ---------------------------------------------------------------------------
  // Settled and refunded are final
  // ---------------------------------------------------------------------------

  /** The same payer and token; once final, the same outcome and price. */
  ghost predicate Continues(before: Task, after: Task) {
    && after.user == before.user && after.source == before.source
    && after.token == before.token && after.tokenUnlimited == before.tokenUnlimited
    && (before.billing != Reserved ==>
          after.billing == before.billing && after.actual == before.actual && Held(after) == Held(before))
  }

  lemma StepContinues(s: State, op: Op, id: nat)
    requires id < |s.tasks|
    ensures id < |Step(s, op).tasks| && Continues(s.tasks[id], Step(s, op).tasks[id])
  {
    hide Create, AdjustBoth, SettleRows, Listed;
  }

  /** No run charges a refunded task, refunds a settled one, or changes a settled price. */
  lemma {:induction false} FinalIsFinal(s: State, ops: seq<Op>, id: nat)
    requires id < |s.tasks|
    ensures id < |Run(s, ops).tasks| && Continues(s.tasks[id], Run(s, ops).tasks[id])
    decreases |ops|
  {
    if ops != [] {
      hide Step;
      StepContinues(s, ops[0], id);
      FinalIsFinal(Step(s, ops[0]), ops[1..], id);
    }
  }

  // ---------------------------------------------------------------------------
  // No overdraft
  // ---------------------------------------------------------------------------

  ghost predicate SolventRows(wallets: map<int, int>, subs: map<int, Sub>, tokens: map<int, Token>) {
    && (forall user :: user in wallets ==> wallets[user] >= 0)
    && (forall id :: id in subs ==> subs[id].used >= 0 && (subs[id].total > 0 ==> subs[id].used <= subs[id].total))
    && (forall id :: id in tokens ==> tokens[id].remain >= 0 && tokens[id].used >= 0)
  }

  ghost predicate Solvent(s: State) {
    SolventRows(s.wallets, s.subs, s.tokens)
  }

  /**
   A booking of the rest of the system does not overdraw the row it is on; a deposit that is not
   negative never does.
   */
  predicate OutsideCovered(s: State, op: Op) {
    match op
    case Deposit(user, amount) => user in s.wallets ==> s.wallets[user] + amount >= 0
    case OtherUse(id, amount) =>
      id in s.subs ==>
          0 <= s.subs[id].used + amount && (s.subs[id].total > 0 ==> s.subs[id].used + amount <= s.subs[id].total)
    case OtherTokenUse(id, amount) =>
      id in s.tokens ==> s.tokens[id].remain - amount >= 0 && s.tokens[id].used + amount >= 0
    case _ => true
  }

  ghost predicate CoveredRun(s: State, ops: seq<Op>)
    decreases |ops|
  {
    ops == [] || (OutsideCovered(s, ops[0]) && CoveredRun(Step(s, ops[0]), ops[1..]))
  }

  lemma {:induction false} SubscriptionsSolvent(s: State, candidates: seq<Candidate>, amount: int)
    requires Solvent(s) && Listed(s, candidates) && amount > 0
    ensures Solvent(TrySubscriptions(s, candidates, amount).0)
    decreases |candidates|
  {
    if candidates != [] {
      var id := candidates[0].id;
      var s1 := if candidates[0].resetDue then ResetUsage(s, id) else s;
      assert Solvent(s1);
      if s1.subs[id].total > 0 && s1.subs[id].total - s1.subs[id].used < amount {
        SubscriptionsSolvent(s1, candidates[1..], amount);
      }
    }
  }

  lemma FundingSolvent(s: State, user: int, amount: int, preference: Preference, candidates: seq<Candidate>)
    requires Solvent(s) && Listed(s, candidates) && amount > 0
    ensures Solvent(ReserveFunding(s, user, amount, preference, candidates).0)
  {
    SubscriptionsSolvent(s, candidates, amount);
    WalletSolvent(s, user, amount);
    WalletSolvent(TrySubscriptions(s, candidates, amount).0, user, amount);
    hide TrySubscriptions, TryWallet, SolventRows;
  }

  lemma WalletSolvent(s: State, user: int, amount: int)
    requires Solvent(s) && amount > 0
    ensures Solvent(TryWallet(s, user, amount).0)
  {
  }

  lemma InsertSolvent(s: State, sub: Submission, source: Source)
    requires Solvent(s) && sub.tokenReserved >= 0
    ensures var r := InsertTask(s, sub, source); r.Some? ==> Solvent(r.value)
  {
  }

  lemma CreateSolvent(s: State, sub: Submission, preference: Preference, candidates: seq<Candidate>)
    requires Solvent(s) && Listed(s, candidates)
    ensures var r := Create(s, sub, preference, candidates); r.Some? ==> Solvent(r.value)
  {
    hide Solvent, ReserveFunding, InsertTask;
    if Create(s, sub, preference, candidates).Some? {
      if sub.reserved > 0 {
        FundingSolvent(s, sub.user, sub.reserved, preference, candidates);
        var funding := ReserveFunding(s, sub.user, sub.reserved, preference, candidates);
        InsertSolvent(funding.0, sub, funding.1.value);
      } else {
        InsertSolvent(s, sub, Wallet);
      }
    }
  }

  lemma AdjustFundingSolvent(s: State, task: Task, delta: int)
    requires Solvent(s)
    ensures var r := AdjustFunding(s, task, delta); r.Some? ==> Solvent(r.value)
  {
  }

  lemma AdjustTokenSolvent(s: State, task: Task, delta: int)
    requires Solvent(s)
    ensures var r := AdjustToken(s, task, delta); r.Some? ==> Solvent(r.value)
  {
  }

  lemma AdjustSolvent(s: State, task: Task, delta: int, tokenDelta: int)
    requires Solvent(s)
    ensures var r := AdjustBoth(s, task, delta, tokenDelta); r.Some? ==> Solvent(r.value)
  {
    hide Solvent, AdjustFunding, AdjustToken;
    AdjustFundingSolvent(s, task, delta);
    if AdjustFunding(s, task, delta).Some? {
      AdjustTokenSolvent(AdjustFunding(s, task, delta).value, task, tokenDelta);
    }
  }

  lemma RaiseSolvent(s: State, id: nat, target: int)
    requires Solvent(s)
    ensures var r := RaiseReservation(s, id, target); r.Some? ==> Solvent(r.value)
  {
    hide AdjustBoth, SolventRows;
    if id < |s.tasks| {
      var task := s.tasks[id];
      AdjustSolvent(s, task, target - task.reserved, (if task.tokenUnlimited then 0 else target) - task.tokenReserved);
    }
  }

  lemma SettleSolvent(s: State, id: nat, actual: int)
    requires Solvent(s) && id < |s.tasks|
    ensures var r := SettleRows(s, id, actual); r.Some? ==> Solvent(r.value)
  {
    hide AdjustBoth, SolventRows;
    var task := s.tasks[id];
    AdjustSolvent(s, task, actual - task.reserved, (if task.tokenUnlimited then 0 else actual) - task.tokenReserved);
  }

  lemma CompletionSolvent(s: State, id: nat, owner: string, actual: int, manifest: bool, named: bool)
    requires Solvent(s)
    ensures var r := Complete(s, id, owner, actual, manifest, named); r.Some? ==> Solvent(r.value)
    ensures var r := CompleteWithArchiveFailure(s, id, owner, actual); r.Some? ==> Solvent(r.value)
    ensures var r := SettleOnly(s, id, actual); r.Some? ==> Solvent(r.value)
  {
    if id < |s.tasks| {
      hide SettleRows, SolventRows, HoldsLease;
      SettleSolvent(s, id, actual);
    }
  }

  lemma RefundSolvent(s: State, id: nat)
    requires Solvent(s)
    ensures var r := Refund(s, id); r.Some? ==> Solvent(r.value)
  {
    hide AdjustBoth, SolventRows;
    if id < |s.tasks| {
      AdjustSolvent(s, s.tasks[id], -s.tasks[id].reserved, -s.tasks[id].tokenReserved);
    }
  }

  lemma ProgressSolvent(s: State, id: nat, owner: string, free: bool)
    requires Solvent(s)
    ensures var r := Claim(s, id, owner, free); r.Some? ==> Solvent(r.value)
    ensures var r := MarkRunning(s, id, owner); r.Some? ==> Solvent(r.value)
  {
  }

  lemma ResetSolvent(s: State, id: int)
    requires Solvent(s) && id in s.subs
    ensures Solvent(ResetUsage(s, id))
  {
  }

  lemma OutsideSolvent(s: State, op: Op)
    requires Solvent(s) && (op.Deposit? || op.OtherUse? || op.OtherTokenUse?)
    ensures Solvent(Step(s, op)) <==> OutsideCovered(s, op)
  {
    match op
    case Deposit(user, amount) =>
      assert user in s.wallets ==> Step(s, op).wallets[user] == s.wallets[user] + amount;
    case OtherUse(id, amount) =>
      assert id in s.subs ==> Step(s, op).subs[id].used == s.subs[id].used + amount;
    case OtherTokenUse(id, amount) =>
      assert id in s.tokens ==> Step(s, op).tokens[id].remain == s.tokens[id].remain - amount;
  }

  /** No transaction on tasks overdraws a wallet, a limited subscription or a token. */
  lemma StepSolvent(s: State, op: Op)
    requires Solvent(s) && OutsideCovered(s, op)
    ensures Solvent(Step(s, op))
  {
    if op.Deposit? || op.OtherUse? || op.OtherTokenUse? {
      OutsideSolvent(s, op);
    }
    hide Solvent, OutsideCovered;
    if Transaction(s, op).Some? {
      match op
      case DoCreate(sub, preference, candidates) => CreateSolvent(s, sub, preference, candidates);
      case DoRaise(id, target) => RaiseSolvent(s, id, target);
      case DoComplete(id, owner, actual, manifest, named) => CompletionSolvent(s, id, owner, actual, manifest, named);
      case DoCompleteFailed(id, owner, actual) => CompletionSolvent(s, id, owner, actual, true, true);
      case DoSettle(id, actual) => CompletionSolvent(s, id, "", actual, true, true);
      case DoRefund(id) => RefundSolvent(s, id);
      case DoClaim(id, owner, free) => ProgressSolvent(s, id, owner, free);
      case DoMarkRunning(id, owner) => ProgressSolvent(s, id, owner, true);
      case PeriodReset(id) => ResetSolvent(s, id);
      case _ =>
    }
  }

  lemma {:induction false} RunSolvent(s: State, ops: seq<Op>)
    requires Solvent(s) && CoveredRun(s, ops)
    ensures Solvent(Run(s, ops))
    decreases |ops|
  {
    if ops != [] {
      hide Step, Solvent, OutsideCovered;
      StepSolvent(s, ops[0]);
      RunSolvent(Step(s, ops[0]), ops[1..]);
    }
  }

  // ---------------------------------------------------------------------------
  // When a refund goes through
  // ---------------------------------------------------------------------------

  /** The payer's row is there and can take the reservation back. */
  predicate PayerCanTake(s: State, task: Task) {
    if task.source.Subscription? then
      && task.source.id in s.subs
      && var sub := s.subs[task.source.id];
         sub.used >= task.reserved && (sub.total > 0 ==> sub.used - task.reserved <= sub.total)
    else task.user in s.wallets && s.wallets[task.user] + task.reserved >= 0
  }

  /** The token's row is there and can take its reservation back. */
  predicate TokenCanTake(s: State, task: Task) {
    && task.token in s.tokens
    && s.tokens[task.token].used >= task.tokenReserved && s.tokens[task.token].remain + task.tokenReserved >= 0
  }

  /**
   A pending refund commits exactly when everything reserved can be booked back: the rows
   exist, the usage counters still show it, and no balance stays below zero even so.
   */
  lemma RefundCommitsIff(s: State, id: nat)
    requires id < |s.tasks| && s.tasks[id].billing == Reserved && WellFormed(s.tasks[id])
    ensures var task := s.tasks[id];
            Refund(s, id).Some? <==>
              && (task.reserved > 0 ==> PayerCanTake(s, task))
              && (MetersToken(task) && task.tokenReserved > 0 ==> TokenCanTake(s, task))
  {
  }

  ghost predicate RowsExist(s: State, task: Task) {
    && (if task.source.Subscription? then task.source.id in s.subs else task.user in s.wallets)
    && (MetersToken(task) ==> task.token in s.tokens)
  }

  lemma {:induction false} ChargeWithinTotal(tasks: seq<Task>, id: nat, account: Account)
    requires id < |tasks|
    requires forall i :: 0 <= i < |tasks| ==> WellFormed(tasks[i])
    ensures TotalCharge(tasks, account) >= Charge(tasks[id], account) >= 0
  {
    var n := |tasks| - 1;
    if id < n {
      ChargeWithinTotal(tasks[..n], id, account);
    } else if n > 0 {
      ChargeWithinTotal(tasks[..n], 0, account);
    }
  }

  /** Without write-offs by period resets, a reserved task can always be refunded. */
  lemma RefundAlwaysPossible(s: State, id: nat)
    requires Inv(s) && Solvent(s) && id < |s.tasks| && s.tasks[id].billing == Reserved
    requires RowsExist(s, s.tasks[id])
    requires Booked(s, Payer(s.tasks[id])) >= 0 && Booked(s, TokenOf(s.tasks[id].token)) >= 0
    ensures Refund(s, id).Some?
  {
    var task := s.tasks[id];
    assert Taken(s, Payer(task)) == TotalCharge(s.tasks, Payer(task));
    assert Taken(s, TokenOf(task.token)) == TotalCharge(s.tasks, TokenOf(task.token));
    ChargeWithinTotal(s.tasks, id, Payer(task));
    ChargeWithinTotal(s.tasks, id, TokenOf(task.token));
    assert WellFormed(task);
    RefundCommitsIff(s, id);
  }

  /** A period reset between submission and failure makes the refund fail, until other usage lifts the counter again. */
  lemma ResetBlocksRefund()
    ensures exists s: State, reset: Op ::
              Inv(s) && Solvent(s) && |s.tasks| == 1 && s.tasks[0].billing == Reserved
              && Refund(s, 0).Some? && reset.PeriodReset? && Refund(Step(s, reset), 0).None?
  {
    var task := Task(1, 0, true, Subscription(7), 10, 0, 0, Reserved, Running, Pending, "w");
    var s := State(map[1 := 0], map[7 := Sub(100, 10)], map[], [task], map[]);
    forall account
      ensures Taken(s, account) == TotalCharge(s.tasks, account)
    {
      assert s.tasks[..0] == [];
    }
    assert WellFormed(task);
    var reset := PeriodReset(7);
    assert Refund(s, 0).Some? && Refund(Step(s, reset), 0).None?;
    assert Inv(s) && Solvent(s);
  }

  /** A wallet overdrawn by more than the reservation refuses the refund, although it would lift the balance. */
  lemma OverdraftBlocksRefund(s: State, id: nat, amount: int)
    requires id < |s.tasks| && s.tasks[id].billing == Reserved && WellFormed(s.tasks[id])
    requires var task := s.tasks[id];
             && !task.source.Subscription? && task.reserved > 0
             && task.user in s.wallets && s.wallets[task.user] + amount + task.reserved < 0
    ensures Refund(Step(s, Deposit(s.tasks[id].user, amount)), id).None?
  {
    RefundCommitsIff(Step(s, Deposit(s.tasks[id].user, amount)), id);
  }

  /** A metered token overdrawn that far refuses the refund as well, the payer's part included. */
  lemma TokenOverdraftBlocksRefund(s: State, id: nat, amount: int)
    requires id < |s.tasks| && s.tasks[id].billing == Reserved && WellFormed(s.tasks[id])
    requires var task := s.tasks[id];
             && MetersToken(task) && task.tokenReserved > 0
             && task.token in s.tokens && s.tokens[task.token].remain - amount + task.tokenReserved < 0
    ensures Refund(Step(s, OtherTokenUse(s.tasks[id].token, amount)), id).None?
  {
    RefundCommitsIff(Step(s, OtherTokenUse(s.tasks[id].token, amount)), id);
  }

  /** Deleting the token before the task fails blocks the refund, the payer's part included. */
  lemma DeletedTokenBlocksRefund(s: State, id: nat)
    requires id < |s.tasks| && s.tasks[id].billing == Reserved && WellFormed(s.tasks[id])
    requires MetersToken(s.tasks[id]) && s.tasks[id].tokenReserved > 0
    ensures Refund(Step(s, DeleteToken(s.tasks[id].token)), id).None?
  {
    RefundCommitsIff(Step(s, DeleteToken(s.tasks[id].token)), id);
  }

  /** Both inputs are reachable: a good state in which the refund commits and no longer does after the step. */
  lemma RefundBlockedFromGoodState(step: Op)
    requires step == Deposit(1, -30) || step == DeleteToken(5)
    ensures exists s: State :: Inv(s) && Solvent(s) && |s.tasks| == 1 && s.tasks[0].billing == Reserved
                               && Refund(s, 0).Some? && Refund(Step(s, step), 0).None?
  {
    var task := Task(1, 5, false, Wallet, 10, 10, 0, Reserved, Running, Pending, "w");
    var s := State(map[1 := 5], map[], map[5 := Token(1, 90, 10)], [task], map[WalletOf(1) := 15]);
    forall account
      ensures Taken(s, account) == TotalCharge(s.tasks, account)
    {
      assert s.tasks[..0] == [];
    }
    assert WellFormed(task);
    RefundCommitsIff(s, 0);
    RefundCommitsIff(Step(s, step), 0);
    assert Inv(s) && Solvent(s);
  }

  /** A committed refund gives back exactly what the task had booked. */
  lemma RefundBooks(s: State, id: nat, refunded: State, account: Account)
    requires id < |s.tasks| && s.tasks[id].billing == Reserved && Refund(s, id) == Some(refunded)
    ensures Taken(refunded, account) == Taken(s, account) - Charge(s.tasks[id], account)
  {
    hide AdjustBoth, Taken;
    var task := s.tasks[id];
    AdjustBooks(s, task, -task.reserved, -task.tokenReserved, account);
    TakenIgnoresTasks(AdjustBoth(s, task, -task.reserved, -task.tokenReserved).value, refunded.tasks, account);
  }

  /** Refunding a fresh submission restores every account. */
  lemma RefundUndoesCreate(s: State, sub: Submission, preference: Preference, candidates: seq<Candidate>,
                           created: State, refunded: State, account: Account)
    requires Listed(s, candidates) && Create(s, sub, preference, candidates) == Some(created)
    requires Refund(created, |s.tasks|) == Some(refunded)
    ensures Taken(refunded, account) == Taken(s, account)
  {
    hide *;
    CreateBooks(s, sub, preference, candidates, account);
    RefundBooks(created, |s.tasks|, refunded, account);
  }

  // ---------------------------------------------------------------------------
  // What a transaction does to the rows, and when it commits
  // ---------------------------------------------------------------------------

  /** The rows can take `delta` from the payer and `tokenDelta` from a metered token. */
  predicate CanBook(s: State, task: Task, delta: int, tokenDelta: int) {
    && (delta != 0 ==>
          match task.source
          case Wallet => task.user in s.wallets && delta <= s.wallets[task.user]
          case Subscription(id) =>
            id in s.subs && 0 <= s.subs[id].used + delta
            && (s.subs[id].total > 0 ==> s.subs[id].used + delta <= s.subs[id].total))
    && (tokenDelta != 0 && !task.tokenUnlimited && task.token > 0 ==>
          && task.token in s.tokens
          && tokenDelta <= s.tokens[task.token].remain && 0 <= s.tokens[task.token].used + tokenDelta)
  }

  /** The payer's row moves by `delta`, a metered token's by `tokenDelta`, and no other row moves. */
  ghost predicate Books(s: State, s': State, task: Task, delta: int, tokenDelta: int) {
    && s'.external == s.external
    && s'.wallets.Keys == s.wallets.Keys && s'.subs.Keys == s.subs.Keys && s'.tokens.Keys == s.tokens.Keys
    && (forall user :: user in s.wallets ==>
          s'.wallets[user] == s.wallets[user] - (if task.source == Wallet && user == task.user then delta else 0))
    && (forall id :: id in s.subs ==>
          && s'.subs[id].total == s.subs[id].total
          && s'.subs[id].used == s.subs[id].used + (if task.source == Subscription(id) then delta else 0))
    && (forall id :: id in s.tokens ==>
          var moved := if !task.tokenUnlimited && id == task.token && id > 0 then tokenDelta else 0;
          s'.tokens[id] == Token(s.tokens[id].owner, s.tokens[id].remain - moved, s.tokens[id].used + moved))
  }

  lemma FundingExactly(s: State, task: Task, delta: int)
    ensures var r := AdjustFunding(s, task, delta);
            && (r.Some? <==> CanBook(s, task, delta, 0))
            && (r.Some? ==> r.value.tokens == s.tokens && Books(s, r.value, task, delta, 0))
  {
  }

  lemma TokenExactly(s: State, task: Task, delta: int)
    ensures var r := AdjustToken(s, task, delta);
            && (r.Some? <==> CanBook(s, task, 0, delta))
            && (r.Some? ==> Books(s, r.value, task, 0, delta))
  {
  }

  lemma AdjustExactly(s: State, task: Task, delta: int, tokenDelta: int)
    ensures var r := AdjustBoth(s, task, delta, tokenDelta);
            && (r.Some? <==> CanBook(s, task, delta, tokenDelta))
            && (r.Some? ==> Books(s, r.value, task, delta, tokenDelta))
  {
    FundingExactly(s, task, delta);
    if AdjustFunding(s, task, delta).Some? {
      TokenExactly(AdjustFunding(s, task, delta).value, task, tokenDelta);
    }
    hide AdjustFunding, AdjustToken;
  }

  lemma BooksAnyTasks(s: State, s': State, tasks: seq<Task>, task: Task, delta: int, tokenDelta: int)
    requires Books(s, s', task, delta, tokenDelta)
    ensures Books(s, s'.(tasks := tasks), task, delta, tokenDelta)
  {
  }

  /** With an unlimited token, its amount does not matter. */
  lemma UnlimitedTokenStays(s: State, s': State, task: Task, delta: int, a: int, b: int)
    requires task.tokenUnlimited
    ensures CanBook(s, task, delta, a) <==> CanBook(s, task, delta, b)
    ensures Books(s, s', task, delta, a) <==> Books(s, s', task, delta, b)
  {
  }

  /** Moving a task to `amount`, for the token unless it is unlimited. */
  lemma MoveExactly(s: State, task: Task, amount: int, r: Option<State>, tasks: seq<Task>)
    requires r == AdjustBoth(s, task, amount - task.reserved,
                             (if task.tokenUnlimited then 0 else amount) - task.tokenReserved)
    ensures r.Some? <==> CanBook(s, task, amount - task.reserved, amount - task.tokenReserved)
    ensures r.Some? ==>
              && r.value.tasks == s.tasks
              && Books(s, r.value.(tasks := tasks), task, amount - task.reserved, amount - task.tokenReserved)
  {
    AdjustExactly(s, task, amount - task.reserved, (if task.tokenUnlimited then 0 else amount) - task.tokenReserved);
    hide AdjustBoth, CanBook;
    if task.tokenUnlimited {
      UnlimitedTokenStays(s, if r.Some? then r.value else s, task, amount - task.reserved, -task.tokenReserved,
                          amount - task.tokenReserved);
    }
  }

  /** The reserved task `id` becomes `settled`, and payer and token pay the difference to the actual price. */
  ghost predicate SettlesAs(s: State, s': State, id: nat, actual: int, settled: Task) {
    && id < |s.tasks| && s'.tasks == s.tasks[id := settled]
    && settled.billing == Settled && settled.actual == actual
    && Books(s, s', s.tasks[id], actual - s.tasks[id].reserved, actual - s.tasks[id].tokenReserved)
  }

  lemma SettleRowsExactly(s: State, id: nat, actual: int, settled: Task)
    requires id < |s.tasks| && settled.billing == Settled && settled.actual == actual
    ensures var r, task := SettleRows(s, id, actual), s.tasks[id];
            && (r.Some? <==> CanBook(s, task, actual - task.reserved, actual - task.tokenReserved))
            && (r.Some? ==>
                  r.value.tasks == s.tasks
                  && SettlesAs(s, r.value.(tasks := s.tasks[id := settled]), id, actual, settled))
  {
    MoveExactly(s, s.tasks[id], actual, SettleRows(s, id, actual), s.tasks[id := settled]);
    hide AdjustBoth, CanBook, Books;
  }

  /** The task is found under the lease, and is settled already or can pay the actual price. */
  predicate CanSettle(s: State, id: nat, owner: string, actual: int) {
    && actual >= 0 && id < |s.tasks| && (owner == "" || s.tasks[id].lease == owner)
    && var task := s.tasks[id];
       || task.billing == Settled
       || (task.billing == Reserved && CanBook(s, task, actual - task.reserved, actual - task.tokenReserved))
  }

  /** A completion settles a running task at the actual price, or leaves a settled one alone. */
  lemma CompleteSettles(s: State, id: nat, owner: string, actual: int, manifest: bool, named: bool)
    ensures var r := Complete(s, id, owner, actual, manifest, named);
            && (r.Some? <==>
                  && CanSettle(s, id, owner, actual) && manifest
                  && (s.tasks[id].billing == Reserved ==> s.tasks[id].status == Running && named))
            && (r.Some? && s.tasks[id].billing == Settled ==> r.value == s)
            && (r.Some? && s.tasks[id].billing == Reserved ==>
                  SettlesAs(s, r.value, id, actual,
                            s.tasks[id].(billing := Settled, actual := actual, status := Succeeded,
                                         output := Archiving)))
  {
    if id < |s.tasks| {
      SettleRowsExactly(s, id, actual, s.tasks[id].(billing := Settled, actual := actual, status := Succeeded,
                                                         output := Archiving));
      hide SettleRows, CanBook, SettlesAs;
    }
  }

  /** The same when the images could not be fetched: the price is paid, the output has failed, the lease is free. */
  lemma ArchiveFailureSettles(s: State, id: nat, owner: string, actual: int)
    ensures var r := CompleteWithArchiveFailure(s, id, owner, actual);
            && (r.Some? <==> CanSettle(s, id, owner, actual))
            && (r.Some? && s.tasks[id].billing == Settled ==> r.value == s)
            && (r.Some? && s.tasks[id].billing == Reserved ==>
                  SettlesAs(s, r.value, id, actual,
                            s.tasks[id].(billing := Settled, actual := actual, status := Succeeded,
                                         output := OutputFailed, lease := "")))
  {
    if id < |s.tasks| {
      SettleRowsExactly(s, id, actual, s.tasks[id].(billing := Settled, actual := actual, status := Succeeded,
                                                         output := OutputFailed, lease := ""));
      hide SettleRows, CanBook, SettlesAs;
    }
  }

  /** Settling alone changes nothing but the price and the billing status. */
  lemma SettleOnlySettles(s: State, id: nat, actual: int)
    ensures var r := SettleOnly(s, id, actual);
            && (r.Some? <==> CanSettle(s, id, "", actual))
            && (r.Some? && s.tasks[id].billing == Settled ==> r.value == s)
            && (r.Some? && s.tasks[id].billing == Reserved ==>
                  SettlesAs(s, r.value, id, actual, s.tasks[id].(billing := Settled, actual := actual)))
  {
    if id < |s.tasks| {
      SettleRowsExactly(s, id, actual, s.tasks[id].(billing := Settled, actual := actual));
      hide SettleRows, CanBook, SettlesAs;
    }
  }

  /** The target lies above the reservation of a task that is still reserved. */
  predicate Raises(s: State, id: nat, target: int) {
    target >= 0 && id < |s.tasks| && s.tasks[id].billing == Reserved && target > s.tasks[id].reserved
  }

  /** A raise never lowers a reservation or touches a final task. */
  lemma RaiseLeavesAlone(s: State, id: nat, target: int)
    requires !Raises(s, id, target)
    ensures RaiseReservation(s, id, target) == if target >= 0 && id < |s.tasks| then Some(s) else None
  {
  }

  /** Otherwise it reserves exactly up to the target, when the rows can take it. */
  lemma RaiseReserves(s: State, id: nat, target: int)
    requires Raises(s, id, target)
    ensures var r, task := RaiseReservation(s, id, target), s.tasks[id];
            && (r.Some? <==> CanBook(s, task, target - task.reserved, target - task.tokenReserved))
            && (r.Some? ==>
                  && r.value.tasks == s.tasks[id := task.(reserved := target,
                                                          tokenReserved := if task.tokenUnlimited then 0 else target)]
                  && Books(s, r.value, task, target - task.reserved, target - task.tokenReserved))
  {
    var r, task := RaiseReservation(s, id, target), s.tasks[id];
    MoveExactly(s, task, target, AdjustBoth(s, task, target - task.reserved,
                                            (if task.tokenUnlimited then 0 else target) - task.tokenReserved),
                if r.Some? then r.value.tasks else []);
    hide AdjustBoth, CanBook, Books;
  }

  /** A refund books both reservations back and frees the lease; a refunded task is left alone. */
  lemma RefundReturns(s: State, id: nat)
    ensures var r := Refund(s, id);
            && (r.Some? <==>
                  && id < |s.tasks| && s.tasks[id].billing != Settled
                  && (s.tasks[id].billing == Reserved ==>
                        CanBook(s, s.tasks[id], -s.tasks[id].reserved, -s.tasks[id].tokenReserved)))
            && (r.Some? && s.tasks[id].billing == Refunded ==> r.value == s)
            && (r.Some? && s.tasks[id].billing == Reserved ==>
                  && r.value.tasks == s.tasks[id := s.tasks[id].(billing := Refunded, status := Failed,
                                                                 output := OutputFailed, lease := "")]
                  && Books(s, r.value, s.tasks[id], -s.tasks[id].reserved, -s.tasks[id].tokenReserved))
  {
    if id < |s.tasks| {
      var task, r := s.tasks[id], Refund(s, id);
      AdjustExactly(s, task, -task.reserved, -task.tokenReserved);
      if AdjustBoth(s, task, -task.reserved, -task.tokenReserved).Some? && r.Some? {
        BooksAnyTasks(s, AdjustBoth(s, task, -task.reserved, -task.tokenReserved).value, r.value.tasks, task,
                      -task.reserved, -task.tokenReserved);
      }
      hide AdjustBoth, CanBook, Books;
    }
  }

  // ---------------------------------------------------------------------------
  // Who pays for a submission
  // ---------------------------------------------------------------------------

  /** A period reset of the subscription is due at one of the candidates. */
  predicate Due(candidates: seq<Candidate>, id: int) {
    exists j :: 0 <= j < |candidates| && candidates[j].id == id && candidates[j].resetDue
  }

  /** What the subscription has used once the due resets are made. */
  function UsedAfter(s: State, candidates: seq<Candidate>, id: int): int
    requires id in s.subs
  {
    if Due(candidates, id) then 0 else s.subs[id].used
  }

  /** Candidate `k` has room for the amount when its turn comes. */
  predicate Fits(s: State, candidates: seq<Candidate>, k: nat, amount: int)
    requires Listed(s, candidates) && k < |candidates|
  {
    var id := candidates[k].id;
    s.subs[id].total > 0 ==> UsedAfter(s, candidates[..k + 1], id) + amount <= s.subs[id].total
  }

  ghost predicate FirstFit(s: State, candidates: seq<Candidate>, k: nat, amount: int)
    requires Listed(s, candidates)
  {
    k < |candidates| && Fits(s, candidates, k, amount) && forall j :: 0 <= j < k ==> !Fits(s, candidates, j, amount)
  }

  /** The due resets of the candidates are made, `amount` is used of subscription `paid`, and nothing else changes. */
  ghost predicate Consumes(s: State, s': State, candidates: seq<Candidate>, paid: Option<int>, amount: int) {
    && s'.wallets == s.wallets && s'.tokens == s.tokens && s'.tasks == s.tasks && s'.subs.Keys == s.subs.Keys
    && forall id :: id in s.subs ==>
         && s'.subs[id].total == s.subs[id].total
         && s'.subs[id].used == UsedAfter(s, candidates, id) + (if paid == Some(id) then amount else 0)
  }

  lemma DueNext(c: Candidate, rest: seq<Candidate>, id: int)
    ensures Due([c] + rest, id) <==> (c.id == id && c.resetDue) || Due(rest, id)
  {
    var all := [c] + rest;
    if j :| 0 <= j < |rest| && rest[j].id == id && rest[j].resetDue {
      assert all[j + 1].id == id && all[j + 1].resetDue;
    }
    if c.id == id && c.resetDue {
      assert all[0].id == id && all[0].resetDue;
    }
  }

  function FirstReset(s: State, candidates: seq<Candidate>): State
    requires Listed(s, candidates) && candidates != []
  {
    if candidates[0].resetDue then ResetUsage(s, candidates[0].id) else s
  }

  /** What is left to look at once the first candidate was reset, if due, and passed over. */
  lemma UsedNext(s: State, candidates: seq<Candidate>, n: nat, id: int)
    requires Listed(s, candidates) && 0 < n <= |candidates| && id in s.subs
    ensures var s1 := FirstReset(s, candidates);
            && s1.subs.Keys == s.subs.Keys && s1.subs[id].total == s.subs[id].total
            && UsedAfter(s, candidates[..n], id) == UsedAfter(s1, candidates[1..][..n - 1], id)
  {
    assert candidates[..n] == [candidates[0]] + candidates[1..][..n - 1];
    DueNext(candidates[0], candidates[1..][..n - 1], id);
    hide Due;
  }

  lemma FitsNext(s: State, candidates: seq<Candidate>, k: nat, amount: int)
    requires Listed(s, candidates) && 0 < k < |candidates|
    ensures var s1 := FirstReset(s, candidates);
            && Listed(s1, candidates[1..])
            && (Fits(s, candidates, k, amount) <==> Fits(s1, candidates[1..], k - 1, amount))
  {
    UsedNext(s, candidates, k + 1, candidates[k].id);
    hide UsedAfter;
  }

  lemma FitsFirst(s: State, candidates: seq<Candidate>, amount: int)
    requires Listed(s, candidates) && candidates != []
    ensures var s1, id := FirstReset(s, candidates), candidates[0].id;
            && s1.subs[id].used == UsedAfter(s, candidates[..1], id) && s1.subs[id].total == s.subs[id].total
            && (Fits(s, candidates, 0, amount) <==>
                  !(s1.subs[id].total > 0 && s1.subs[id].total - s1.subs[id].used < amount))
  {
    assert candidates[..1] == [candidates[0]] + [];
    DueNext(candidates[0], [], candidates[0].id);
    hide Due;
  }

  lemma FitsRest(s: State, s1: State, candidates: seq<Candidate>, amount: int)
    requires Listed(s, candidates) && candidates != [] && s1 == FirstReset(s, candidates)
    ensures Listed(s1, candidates[1..])
    ensures forall j :: 0 < j < |candidates| ==>
              (Fits(s, candidates, j, amount) <==> Fits(s1, candidates[1..], j - 1, amount))
  {
    forall j | 0 < j < |candidates|
      ensures Fits(s, candidates, j, amount) <==> Fits(s1, candidates[1..], j - 1, amount)
    {
      FitsNext(s, candidates, j, amount);
    }
  }

  lemma ConsumesFirst(s: State, candidates: seq<Candidate>, amount: int)
    requires Listed(s, candidates) && candidates != []
    ensures var s1, id := FirstReset(s, candidates), candidates[0].id;
            Consumes(s, s1.(subs := s1.subs[id := s1.subs[id].(used := s1.subs[id].used + amount)]),
                     candidates[..1], Some(id), amount)
  {
    FitsFirst(s, candidates, amount);
    forall id | id in s.subs && id != candidates[0].id
      ensures UsedAfter(s, candidates[..1], id) == s.subs[id].used
    {
    }
    hide UsedAfter;
  }

  lemma ConsumesRest(s: State, s': State, candidates: seq<Candidate>, n: nat, paid: Option<int>, amount: int)
    requires Listed(s, candidates) && 0 < n <= |candidates|
    requires Consumes(FirstReset(s, candidates), s', candidates[1..][..n - 1], paid, amount)
    ensures Consumes(s, s', candidates[..n], paid, amount)
  {
    forall id | id in s.subs
      ensures var s1 := FirstReset(s, candidates);
              && id in s1.subs && s1.subs[id].total == s.subs[id].total
              && UsedAfter(s, candidates[..n], id) == UsedAfter(s1, candidates[1..][..n - 1], id)
    {
      UsedNext(s, candidates, n, id);
    }
    hide UsedAfter;
  }

  /** The first candidate with room pays; with none, only the due resets remain. */
  lemma {:induction false} FirstFitPays(s: State, candidates: seq<Candidate>, amount: int) returns (k: nat)
    requires Listed(s, candidates)
    ensures var (s', source) := TrySubscriptions(s, candidates, amount);
            if source.Some?
            then FirstFit(s, candidates, k, amount) && source == Some(Subscription(candidates[k].id))
                 && Consumes(s, s', candidates[..k + 1], Some(candidates[k].id), amount)
            else k == |candidates| && (forall j :: 0 <= j < k ==> !Fits(s, candidates, j, amount))
                 && Consumes(s, s', candidates[..k], None, amount)
    decreases |candidates|
  {
    k := 0;
    if candidates == [] {
      assert candidates[..0] == [];
    } else {
      FitsFirst(s, candidates, amount);
      var s1 := FirstReset(s, candidates);
      FitsRest(s, s1, candidates, amount);
      if Fits(s, candidates, 0, amount) {
        ConsumesFirst(s, candidates, amount);
      } else {
        var i := FirstFitPays(s1, candidates[1..], amount);
        k := i + 1;
        var (s', source) := TrySubscriptions(s1, candidates[1..], amount);
        hide Fits, ResetUsage;
        if source.Some? {
          ConsumesRest(s, s', candidates, k + 1, Some(candidates[k].id), amount);
        } else {
          ConsumesRest(s, s', candidates, k, None, amount);
        }
      }
    }
  }

  ghost predicate HasRoom(s: State, candidates: seq<Candidate>, amount: int)
    requires Listed(s, candidates)
  {
    exists k :: 0 <= k < |candidates| && Fits(s, candidates, k, amount)
  }

  predicate CanPay(s: State, user: int, amount: int) {
    user in s.wallets && amount <= s.wallets[user]
  }

  /** Some active subscription lets the wallet pay, or there is none. */
  predicate Overflows(candidates: seq<Candidate>) {
    candidates == [] || exists i :: 0 <= i < |candidates| && candidates[i].overflow
  }

  lemma ConsumesNothing(s: State, amount: int)
    ensures Consumes(s, s, [], None, amount)
  {
  }

  /**
   Which source pays: the wallet when it may and can, a subscription when it may and one has
   room. Asking the subscriptions first makes the due resets even when the wallet pays.
   */
  lemma FundingFollowsPreference(s: State, user: int, amount: int, preference: Preference,
                                 candidates: seq<Candidate>) returns (k: nat)
    requires Listed(s, candidates)
    ensures var (s', source) := ReserveFunding(s, user, amount, preference, candidates);
            var room := HasRoom(s, candidates, amount);
            && (source == Some(Wallet) <==>
                  && CanPay(s, user, amount) && preference != SubscriptionOnly
                  && (preference == SubscriptionFirst ==> !room && Overflows(candidates)))
            && (source.Some? && source.value.Subscription? <==>
                  && room && preference != WalletOnly
                  && (preference == WalletFirst ==> user in s.wallets && s.wallets[user] < amount))
            && (source == Some(Wallet) ==>
                  && CanPay(s, user, amount) && s'.wallets == s.wallets[user := s.wallets[user] - amount]
                  && Consumes(s, s'.(wallets := s.wallets),
                              if preference == SubscriptionFirst then candidates else [], None, amount))
            && (source.Some? && source.value.Subscription? ==>
                  && FirstFit(s, candidates, k, amount) && source.value.id == candidates[k].id
                  && Consumes(s, s', candidates[..k + 1], Some(candidates[k].id), amount))
  {
    k := FirstFitPays(s, candidates, amount);
    var (s1, paid) := TrySubscriptions(s, candidates, amount);
    assert paid.Some? ==> Fits(s, candidates, k, amount);
    assert HasRoom(s, candidates, amount) <==> paid.Some?;
    assert candidates[..|candidates|] == candidates;
    ConsumesNothing(s, amount);
    hide TrySubscriptions, Fits, UsedAfter;
  }

  /** A submission commits exactly when its source can pay and its own token has the quota. */
  lemma CreateCommitsIff(s: State, sub: Submission, preference: Preference, candidates: seq<Candidate>)
    requires Listed(s, candidates)
    ensures Create(s, sub, preference, candidates).Some? <==>
              && sub.reserved >= 0 && sub.tokenReserved >= 0
              && (sub.reserved > 0 ==> ReserveFunding(s, sub.user, sub.reserved, preference, candidates).1.Some?)
              && (sub.tokenReserved > 0 && !sub.tokenUnlimited && sub.token > 0 ==>
                    && sub.token in s.tokens && s.tokens[sub.token].owner == sub.user
                    && sub.tokenReserved <= s.tokens[sub.token].remain)
  {
    FundingBooks(s, sub.user, sub.reserved, preference, candidates, WalletOf(sub.user));
    hide ReserveFunding, Taken;
  }

  /** The new task carries the submission, unpriced and queued; the token gives what it reserves. */
  lemma CreateReserves(s: State, sub: Submission, preference: Preference, candidates: seq<Candidate>)
    requires Listed(s, candidates) && Create(s, sub, preference, candidates).Some?
    ensures var s' := Create(s, sub, preference, candidates).value;
            var (funded, source) := if sub.reserved > 0
                                    then ReserveFunding(s, sub.user, sub.reserved, preference, candidates)
                                    else (s, Some(Wallet));
            && source.Some? && s'.wallets == funded.wallets && s'.subs == funded.subs
            && s'.tasks == s.tasks + [Task(sub.user, sub.token, sub.tokenUnlimited, source.value, sub.reserved,
                                           sub.tokenReserved, 0, Reserved, Queued, Pending, "")]
            && s'.tokens.Keys == s.tokens.Keys
            && forall id :: id in s.tokens ==>
                 var moved := if !sub.tokenUnlimited && id == sub.token && id > 0 then sub.tokenReserved else 0;
                 s'.tokens[id] == Token(s.tokens[id].owner, s.tokens[id].remain - moved, s.tokens[id].used + moved)
  {
    FundingBooks(s, sub.user, sub.reserved, preference, candidates, WalletOf(sub.user));
    hide ReserveFunding, Taken;
  }

  // ---------------------------------------------------------------------------
  // The price of a settled task over a whole run
  // ---------------------------------------------------------------------------

  /** The price the transaction settles task `id` at, if it is of that kind. */
  function PriceFor(op: Op, id: nat): Option<int> {
    match op
    case DoComplete(i, _, actual, _, _) => if i == id then Some(actual) else None
    case DoCompleteFailed(i, _, actual) => if i == id then Some(actual) else None
    case DoSettle(i, actual) => if i == id then Some(actual) else None
    case _ => None
  }

  /** The task is not there yet, or still reserved. */
  predicate Unsettled(s: State, id: nat) {
    id >= |s.tasks| || s.tasks[id].billing == Reserved
  }

  lemma StepPrices(s: State, op: Op, id: nat)
    requires Unsettled(s, id)
    ensures var s' := Step(s, op);
            id < |s'.tasks| && s'.tasks[id].billing == Settled ==> PriceFor(op, id) == Some(s'.tasks[id].actual)
  {
    hide AdjustBoth, SettleRows, Create;
    if op.DoCreate? && Transaction(s, op).Some? {
      CreateReserves(s, op.sub, op.preference, op.candidates);
    }
  }

  /** The price of a settled task is the one given to the transaction that settled it, the first of them to commit. */
  lemma {:induction false} PriceIsSettlementPrice(s: State, ops: seq<Op>, id: nat) returns (k: nat)
    requires Unsettled(s, id) && id < |Run(s, ops).tasks| && Run(s, ops).tasks[id].billing == Settled
    ensures k < |ops| && Unsettled(Run(s, ops[..k]), id)
    ensures PriceFor(ops[k], id) == Some(Run(s, ops).tasks[id].actual)
    decreases |ops|
  {
    var s1 := Step(s, ops[0]);
    hide Step;
    StepPrices(s, ops[0], id);
    if Unsettled(s1, id) {
      k := PriceIsSettlementPrice(s1, ops[1..], id);
      k := k + 1;
      assert ops[..k][1..] == ops[1..][..k - 1];
    } else {
      k := 0;
      FinalIsFinal(s1, ops[1..], id);
      assert ops[..0] == [];
    }
  }

  // ---------------------------------------------------------------------------
  // The lease
  // ---------------------------------------------------------------------------

  /** A named worker takes a free task and becomes its only holder; nothing else changes. */
  lemma ClaimTakesLease(s: State, id: nat, owner: string, free: bool)
    ensures var r := Claim(s, id, owner, free);
            && (r.Some? <==> owner != "" && id < |s.tasks| && free)
            && (r.Some? ==> r.value == s.(tasks := s.tasks[id := s.tasks[id].(lease := owner)]))
            && (r.Some? ==> forall other :: other != "" ==> (HoldsLease(r.value.tasks[id], other) <==> other == owner))
  {
  }

  /** Only the holder of the lease starts a reserved task that has not ended. */
  lemma HolderStarts(s: State, id: nat, owner: string)
    ensures var r := MarkRunning(s, id, owner);
            && (r.Some? <==>
                  && id < |s.tasks| && s.tasks[id].lease == owner && s.tasks[id].billing == Reserved
                  && s.tasks[id].status != Succeeded && s.tasks[id].status != Failed)
            && (r.Some? ==> r.value == s.(tasks := s.tasks[id := s.tasks[id].(status := Running)]))
  {
  }

  /** A queued task that is claimed and started is completed by that worker, if it can be paid, and by no other. */
  lemma ClaimedIsCompleted(s: State, id: nat, owner: string, other: string, actual: int)
    requires id < |s.tasks| && s.tasks[id].billing == Reserved && s.tasks[id].status == Queued
    requires owner != "" && other != "" && other != owner && actual >= 0
    ensures var s2 := Step(Step(s, DoClaim(id, owner, true)), DoMarkRunning(id, owner));
            && (Complete(s2, id, owner, actual, true, true).Some? <==>
                  CanBook(s, s.tasks[id], actual - s.tasks[id].reserved, actual - s.tasks[id].tokenReserved))
            && Complete(s2, id, other, actual, true, true).None? && MarkRunning(s2, id, other).None?
  {
    var s1 := Step(s, DoClaim(id, owner, true));
    assert s1 == s.(tasks := s.tasks[id := s.tasks[id].(lease := owner)]);
    var s2 := Step(s1, DoMarkRunning(id, owner));
    assert s2.tasks[id] == s.tasks[id].(lease := owner, status := Running);
    CompleteSettles(s2, id, owner, actual, true, true);
    CompleteSettles(s2, id, other, actual, true, true);
    hide Step, Complete, SettlesAs;
  }
}
