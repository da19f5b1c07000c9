/** Refunding, by any number of workers at once.

    Every worker reads a batch of refund rows, claims each by compare-and-swap on the number
    of attempts, asks the provider what it already knows, and only then may submit the
    refund.  A task below is one worker's handling of one row.  Tasks interleave freely, may
    stop at any point, and the provider answers as it likes.  Operators confirm refunds by
    hand meanwhile. */
module RefundWorker {
  import opened Wrappers
  import opened Sums

  type RefundId = nat

  datatype RowStatus = Requested | Processing | Refunded | ManualRequired

  /** A refund row together with the one thing the worker changes in its transaction. */
  datatype Row = Row(
    amount: nat,
    viaPaystack: bool,
    hasProviderTransaction: bool,
    status: RowStatus,
    attempts: nat,
    nextAttemptAt: int,
    leaseExpiresAt: Option<int>,
    providerRefund: Option<nat>,
    confirmation: Option<string>,
    transactionRefunded: bool)

  datatype ProviderStatus = Processed | Pending | OtherStatus

  datatype ProviderRefund = ProviderRefund(id: nat, amount: nat, inNaira: bool, status: ProviderStatus)

  datatype Phase =
    | Read
    | Claimed
    | Listed(found: Option<ProviderRefund>)
    | Marked
    | Answered(answer: ProviderRefund)
    | Over

  /** `seen` is the row as the worker read it. */
  datatype Task = Task(refund: RefundId, seen: Row, phase: Phase)

  /** A refund submitted to the provider. */
  datatype Submission = Submission(refund: RefundId, amount: nat)

  datatype Desk = Desk(now: int, rows: seq<Row>, tasks: seq<Task>, submissions: seq<Submission>)

  datatype Reply = Answer(refund: ProviderRefund) | Error | Silence

  datatype Step =
    | Tick(to: int)
    | Require(amount: nat, viaPaystack: bool, hasProviderTransaction: bool)
    | ReadRow(refund: RefundId)
    | Claim(task: nat)
    | List(task: nat, known: seq<ProviderRefund>)
    | Mark(task: nat)
    | Submit(task: nat, reply: Reply)
    | Record(task: nat)
    | GiveUp(task: nat)
    | Crash(task: nat)
    | Confirm(refund: RefundId, reference: string)

  // ---------- The rows' updates ----------

  predicate IsDue(row: Row, now: int) {
    && row.status != Refunded && row.nextAttemptAt <= now
    && (row.leaseExpiresAt.None? || row.leaseExpiresAt.value <= now)
  }

  function ClaimRow(row: Row, now: int): Row {
    row.(attempts := row.attempts + 1, leaseExpiresAt := Some(now + 120000), nextAttemptAt := now + 60000)
  }

  /** Hands the row to an operator unless it is refunded by now. */
  function Manual(row: Row, now: int): Row {
    if row.status == Refunded then row
    else row.(status := ManualRequired, leaseExpiresAt := None, nextAttemptAt := now + 300000)
  }

  function IdText(id: nat): string {
    if id < 10 then [DIGITS[id]] else IdText(id / 10) + [DIGITS[id % 10]]
  }

  const DIGITS := "0123456789"

  function RecordAnswer(row: Row, answer: ProviderRefund, now: int): Row {
    match answer.status
    case Processed =>
      row.(status := Refunded, providerRefund := Some(answer.id), leaseExpiresAt := None,
           confirmation := Some(IdText(answer.id)), transactionRefunded := true)
    case Pending => row.(status := Processing, providerRefund := Some(answer.id), leaseExpiresAt := None)
    case OtherStatus => Manual(row, now)
  }

  function FindRefund(known: seq<ProviderRefund>, amount: nat): Option<ProviderRefund> {
    if |known| == 0 then None
    else if known[0].amount == amount && known[0].inNaira then Some(known[0])
    else FindRefund(known[1..], amount)
  }

  // ---------- The steps ----------

  function SetTask(desk: Desk, task: nat, phase: Phase): Desk
    requires task < |desk.tasks|
  {
    desk.(tasks := desk.tasks[task := desk.tasks[task].(phase := phase)])
  }

  function SetRow(desk: Desk, refund: RefundId, row: Row): Desk
    requires refund < |desk.rows|
  {
    desk.(rows := desk.rows[refund := row])
  }

  predicate InPhase(desk: Desk, task: nat, phase: Phase) {
    task < |desk.tasks| && desk.tasks[task].phase == phase && desk.tasks[task].refund < |desk.rows|
  }

  /** Ends with the row handed to an operator. */
  function EndManually(desk: Desk, task: nat): Desk
    requires task < |desk.tasks| && desk.tasks[task].refund < |desk.rows|
  {
    var refund := desk.tasks[task].refund;
    SetTask(SetRow(desk, refund, Manual(desk.rows[refund], desk.now)), task, Over)
  }

  /** One step of one party; a step that is not possible changes nothing. */
  function Apply(desk: Desk, step: Step): Desk {
    match step
    case Tick(to) => if desk.now <= to then desk.(now := to) else desk
    case Require(amount, viaPaystack, hasProviderTransaction) =>
      desk.(rows := desk.rows +
        [Row(amount, viaPaystack, hasProviderTransaction, Requested, 0, desk.now, None, None, None, false)])
    case ReadRow(refund) =>
      if refund < |desk.rows| && IsDue(desk.rows[refund], desk.now)
      then desk.(tasks := desk.tasks + [Task(refund, desk.rows[refund], Read)]) else desk
    case Claim(task) =>
      if !InPhase(desk, task, Read) then desk
      else
        var t := desk.tasks[task];
        var row := desk.rows[t.refund];
        if row.attempts != t.seen.attempts || row.status != t.seen.status then SetTask(desk, task, Over)
        else SetTask(SetRow(desk, t.refund, ClaimRow(row, desk.now)), task, Claimed)
    case List(task, known) =>
      if !InPhase(desk, task, Claimed) then desk
      else if !desk.tasks[task].seen.viaPaystack || !desk.tasks[task].seen.hasProviderTransaction then
        EndManually(desk, task)
      else SetTask(desk, task, Listed(FindRefund(known, desk.tasks[task].seen.amount)))
    case Mark(task) =>
      if !InPhase(desk, task, Listed(None)) then desk
      else if desk.tasks[task].seen.attempts != 0 then EndManually(desk, task)
      else
        var refund := desk.tasks[task].refund;
        SetTask(SetRow(desk, refund, desk.rows[refund].(status := Processing)), task, Marked)
    case Submit(task, reply) =>
      if !InPhase(desk, task, Marked) then desk
      else
        var t := desk.tasks[task];
        var submitted := desk.(submissions := desk.submissions + [Submission(t.refund, t.seen.amount)]);
        (match reply
         case Answer(answer) => SetTask(submitted, task, Answered(answer))
         case Error => EndManually(submitted, task)
         case Silence => SetTask(submitted, task, Over))
    case Record(task) =>
      if task >= |desk.tasks| || desk.tasks[task].refund >= |desk.rows| then desk
      else
        var refund := desk.tasks[task].refund;
        (match desk.tasks[task].phase
         case Answered(answer) =>
           SetTask(SetRow(desk, refund, RecordAnswer(desk.rows[refund], answer, desk.now)), task, Over)
         case Listed(Some(answer)) =>
           SetTask(SetRow(desk, refund, RecordAnswer(desk.rows[refund], answer, desk.now)), task, Over)
         case _ => desk)
    case GiveUp(task) =>
      if task >= |desk.tasks| || desk.tasks[task].refund >= |desk.rows|
         || desk.tasks[task].phase == Read || desk.tasks[task].phase == Over then desk
      else EndManually(desk, task)
    case Crash(task) => if task < |desk.tasks| then SetTask(desk, task, Over) else desk
    case Confirm(refund, reference) =>
      if refund < |desk.rows| && desk.rows[refund].status == ManualRequired && |reference| >= 3
      then SetRow(desk, refund, desk.rows[refund].(
             status := Refunded, confirmation := Some(reference), transactionRefunded := true))
      else desk
  }

  function Run(desk: Desk, steps: seq<Step>): Desk {
    if |steps| == 0 then desk else Apply(Run(desk, steps[..|steps| - 1]), steps[|steps| - 1])
  }

  // ---------- Looking for a refund ----------

  /** A refund at the provider that can be the one a row asks for. */
  predicate Matches(refund: ProviderRefund, amount: nat) {
    refund.amount == amount && refund.inNaira
  }

  /** What a listing takes up is one of the provider's refunds, of the row's amount and in
      naira, the first such; and it takes up none exactly if there is none. */
  lemma {:induction false} ListingIsExact(known: seq<ProviderRefund>, amount: nat)
    ensures var found := FindRefund(known, amount);
            && (found.None? <==> forall k :: 0 <= k < |known| ==> !Matches(known[k], amount))
            && (found.Some? ==>
                  exists k :: && 0 <= k < |known| && known[k] == found.value && Matches(known[k], amount)
                              && forall j :: 0 <= j < k ==> !Matches(known[j], amount))
  {
    if |known| > 0 && !Matches(known[0], amount) {
      ListingIsExact(known[1..], amount);
      if FindRefund(known, amount).Some? {
        var rest := known[1..];
        var k :| && 0 <= k < |rest| && rest[k] == FindRefund(known, amount).value && Matches(rest[k], amount)
                 && forall j :: 0 <= j < k ==> !Matches(rest[j], amount);
        assert known[k + 1] == rest[k];
        forall j | 0 <= j < k + 1
          ensures !Matches(known[j], amount)
        {
          if j > 0 {
            assert known[j] == rest[j - 1];
          }
        }
      } else {
        forall k | 0 <= k < |known|
          ensures !Matches(known[k], amount)
        {
          if k > 0 {
            assert known[k] == known[1..][k - 1];
          }
        }
      }
    }
  }

  // ---------- The right to submit ----------

  /** A task that may yet submit a refund. */
  predicate Armed(task: Task) {
    task.seen.attempts == 0 && (task.phase == Claimed || task.phase == Listed(None) || task.phase == Marked)
  }

  function ArmedFor(refund: RefundId): Task -> nat {
    (task: Task) => if task.refund == refund && Armed(task) then 1 else 0
  }

  function SubmittedFor(refund: RefundId): Submission -> nat {
    (s: Submission) => if s.refund == refund then 1 else 0
  }

  function Submissions(desk: Desk, refund: RefundId): nat {
    Sum(desk.submissions, SubmittedFor(refund))
  }

  /** Rights not yet used: one with the row until it is first claimed, then with a task. */
  function RightsLeft(desk: Desk, refund: RefundId): nat {
    (if refund < |desk.rows| && desk.rows[refund].attempts > 0 then 0 else 1) + Sum(desk.tasks, ArmedFor(refund))
  }

  /** Whatever a task has found at the provider is of its row's amount and in naira. */
  predicate FoundMatches(task: Task) {
    task.phase.Listed? && task.phase.found.Some? ==> Matches(task.phase.found.value, task.seen.amount)
  }

  /** What holds of every row and task at any time. */
  ghost predicate Sound(desk: Desk) {
    && (forall r :: 0 <= r < |desk.rows| && desk.rows[r].status == Refunded ==>
          desk.rows[r].transactionRefunded && desk.rows[r].confirmation.Some?)
    && (forall r :: 0 <= r < |desk.rows| && desk.rows[r].transactionRefunded ==> desk.rows[r].confirmation.Some?)
    && (forall t :: 0 <= t < |desk.tasks| ==>
          && desk.tasks[t].refund < |desk.rows| && desk.tasks[t].seen.amount == desk.rows[desk.tasks[t].refund].amount
          && (desk.tasks[t].phase == Marked ==> desk.tasks[t].seen.attempts == 0)
          && FoundMatches(desk.tasks[t]))
    && (forall p :: 0 <= p < |desk.submissions| ==>
          && desk.submissions[p].refund < |desk.rows|
          && desk.submissions[p].amount == desk.rows[desk.submissions[p].refund].amount)
    && (forall r :: RightsLeft(desk, r) + Submissions(desk, r) <= 1)
  }

  /** What never changes back. */
  predicate RowKeeps(a: Row, b: Row) {
    && a.amount == b.amount && a.attempts <= b.attempts
    && (a.transactionRefunded ==> b.transactionRefunded)
    && (a.confirmation.Some? ==> b.confirmation.Some?)
  }

  ghost predicate Keeps(a: Desk, b: Desk) {
    && |a.rows| <= |b.rows| && a.submissions <= b.submissions
    && (forall r :: 0 <= r < |a.rows| ==> RowKeeps(a.rows[r], b.rows[r]))
    && (forall r :: 0 <= r < |a.rows| ==>
          RightsLeft(b, r) + Submissions(b, r) <= RightsLeft(a, r) + Submissions(a, r))
  }

  lemma KeepsTransitive(a: Desk, b: Desk, c: Desk)
    requires Keeps(a, b) && Keeps(b, c)
    ensures Keeps(a, c)
  {
    hide RightsLeft, Submissions;
    assert forall r :: 0 <= r < |a.rows| ==> RowKeeps(a.rows[r], b.rows[r]);
  }

  /** Rights in play at one row: its own, a worker's, and those used up. */
  function Stake(row: Row, task: Task, made: nat): nat {
    (if row.attempts > 0 then 0 else 1) + (if Armed(task) then 1 else 0) + made
  }

  function Changed(desk: Desk, task: nat, row: Row, phase: Phase, made: seq<Submission>): Desk
    requires task < |desk.tasks| && desk.tasks[task].refund < |desk.rows|
  {
    SetTask(SetRow(desk, desk.tasks[task].refund, row), task, phase).(submissions := desk.submissions + made)
  }

  lemma ChangeKeepsRights(desk: Desk, task: nat, row: Row, phase: Phase, made: seq<Submission>, r: RefundId)
    requires task < |desk.tasks| && desk.tasks[task].refund < |desk.rows|
    requires made == [] || made == [Submission(desk.tasks[task].refund, row.amount)]
    requires desk.rows[desk.tasks[task].refund].attempts <= row.attempts
    requires Stake(row, desk.tasks[task].(phase := phase), |made|)
             <= Stake(desk.rows[desk.tasks[task].refund], desk.tasks[task], 0)
    ensures var b := Changed(desk, task, row, phase, made);
            RightsLeft(b, r) + Submissions(b, r) <= RightsLeft(desk, r) + Submissions(desk, r)
  {
    var b := Changed(desk, task, row, phase, made);
    SumUpdate(desk.tasks, task, b.tasks[task], ArmedFor(r));
    SumOthers(desk.tasks, task, ArmedFor(r));
    if made == [] {
      assert b.submissions == desk.submissions;
    } else {
      SumAppend(desk.submissions, made[0], SubmittedFor(r));
    }
    hide Sum;
  }

  /** One row and one task change, and perhaps a submission is made. */
  lemma ChangeKeeps(desk: Desk, task: nat, row: Row, phase: Phase, made: seq<Submission>)
    requires Sound(desk) && task < |desk.tasks| && RowKeeps(desk.rows[desk.tasks[task].refund], row)
    requires row.status == Refunded || row.transactionRefunded ==> row.transactionRefunded && row.confirmation.Some?
    requires made == [] || made == [Submission(desk.tasks[task].refund, row.amount)]
    requires phase == Marked ==> desk.tasks[task].seen.attempts == 0
    requires FoundMatches(desk.tasks[task].(phase := phase))
    requires Stake(row, desk.tasks[task].(phase := phase), |made|)
             <= Stake(desk.rows[desk.tasks[task].refund], desk.tasks[task], 0)
    ensures var b := Changed(desk, task, row, phase, made);
            Sound(b) && Keeps(desk, b)
  {
    var b := Changed(desk, task, row, phase, made);
    forall r: nat
      ensures RightsLeft(b, r) + Submissions(b, r) <= RightsLeft(desk, r) + Submissions(desk, r) <= 1
    {
      ChangeKeepsRights(desk, task, row, phase, made, r);
      assert RightsLeft(desk, r) + Submissions(desk, r) <= 1;
    }
    hide RightsLeft, Submissions, Stake;
  }

  /** Ending a task, with its row as it is or in an operator's hands. */
  lemma EndKeeps(desk: Desk, task: nat)
    requires Sound(desk) && task < |desk.tasks|
    ensures Sound(SetTask(desk, task, Over)) && Keeps(desk, SetTask(desk, task, Over))
    ensures Sound(EndManually(desk, task)) && Keeps(desk, EndManually(desk, task))
  {
    var row := desk.rows[desk.tasks[task].refund];
    hide RightsLeft, Submissions;
    ChangeKeeps(desk, task, row, Over, []);
    ChangeKeeps(desk, task, Manual(row, desk.now), Over, []);
    assert Changed(desk, task, row, Over, []) == SetTask(desk, task, Over);
    assert Changed(desk, task, Manual(row, desk.now), Over, []) == EndManually(desk, task);
  }

  lemma WorkKeeps(desk: Desk, step: Step)
    requires Sound(desk) && (step.Claim? || step.List? || step.Mark?)
    ensures Sound(Apply(desk, step)) && Keeps(desk, Apply(desk, step))
  {
    var b, task := Apply(desk, step), step.task;
    hide RightsLeft, Submissions;
    KeepsItself(desk);
    if task < |desk.tasks| {
      EndKeeps(desk, task);
      if step.List? {
        ListingIsExact(step.known, desk.tasks[task].seen.amount);
      }
      if b != desk && b.tasks[task].phase != Over {
        var row := b.rows[desk.tasks[task].refund];
        ChangeKeeps(desk, task, row, b.tasks[task].phase, []);
        assert Changed(desk, task, row, b.tasks[task].phase, []) == b;
      }
    }
  }

  lemma SubmitKeeps(desk: Desk, task: nat, reply: Reply)
    requires Sound(desk)
    ensures Sound(Apply(desk, Submit(task, reply))) && Keeps(desk, Apply(desk, Submit(task, reply)))
  {
    hide RightsLeft, Submissions;
    KeepsItself(desk);
    if InPhase(desk, task, Marked) {
      var t := desk.tasks[task];
      var row := desk.rows[t.refund];
      var made := [Submission(t.refund, t.seen.amount)];
      assert desk.rows[t.refund := row] == desk.rows;
      match reply
      case Answer(answer) => ChangeKeeps(desk, task, row, Answered(answer), made);
      case Error => ChangeKeeps(desk, task, Manual(row, desk.now), Over, made);
      case Silence => ChangeKeeps(desk, task, row, Over, made);
    }
  }

  lemma RecordKeeps(desk: Desk, task: nat)
    requires Sound(desk)
    ensures Sound(Apply(desk, Record(task))) && Keeps(desk, Apply(desk, Record(task)))
  {
    var b := Apply(desk, Record(task));
    hide RightsLeft, Submissions;
    KeepsItself(desk);
    if b != desk {
      var row := b.rows[desk.tasks[task].refund];
      ChangeKeeps(desk, task, row, Over, []);
      assert Changed(desk, task, row, Over, []) == b;
    }
  }

  lemma KeepsItself(desk: Desk)
    ensures Keeps(desk, desk)
  {}

  lemma OtherStepGivesNoRight(desk: Desk, step: Step, r: RefundId)
    requires Sound(desk) && (step.Tick? || step.Require? || step.ReadRow? || step.Confirm?)
    ensures var b := Apply(desk, step);
            RightsLeft(b, r) + Submissions(b, r) <= RightsLeft(desk, r) + Submissions(desk, r)
  {
    var b := Apply(desk, step);
    if b.tasks != desk.tasks {
      SumAppend(desk.tasks, b.tasks[|desk.tasks|], ArmedFor(r));
    }
    hide Sum;
  }

  lemma OtherStepKeeps(desk: Desk, step: Step)
    requires Sound(desk) && (step.Tick? || step.Require? || step.ReadRow? || step.Confirm?)
    ensures Sound(Apply(desk, step)) && Keeps(desk, Apply(desk, step))
  {
    hide RightsLeft, Submissions;
    var b := Apply(desk, step);
    forall r: nat
      ensures RightsLeft(b, r) + Submissions(b, r) <= RightsLeft(desk, r) + Submissions(desk, r) <= 1
    {
      OtherStepGivesNoRight(desk, step, r);
    }
  }

  lemma StepKeeps(desk: Desk, step: Step)
    requires Sound(desk)
    ensures Sound(Apply(desk, step)) && Keeps(desk, Apply(desk, step))
  {
    match step
    case Submit(task, reply) => SubmitKeeps(desk, task, reply);
    case Record(task) => RecordKeeps(desk, task);
    case GiveUp(task) =>
      KeepsItself(desk);
      if task < |desk.tasks| { EndKeeps(desk, task); }
    case Crash(task) =>
      KeepsItself(desk);
      if task < |desk.tasks| { EndKeeps(desk, task); }
    case Claim(_) => WorkKeeps(desk, step);
    case List(_, _) => WorkKeeps(desk, step);
    case Mark(_) => WorkKeeps(desk, step);
    case _ => OtherStepKeeps(desk, step);
  }

  /** The main result on refunds.  In any interleaving of any number of workers, crashes,
      provider answers and operators, each refund is submitted at most once and for the amount
      of its row; a refunded row has its transaction refunded and a confirmation on file; and
      a refunded transaction stays refunded. */
  lemma {:induction false} RunsStaySound(desk: Desk, steps: seq<Step>)
    requires Sound(desk)
    ensures Sound(Run(desk, steps)) && Keeps(desk, Run(desk, steps))
    ensures forall r :: Submissions(Run(desk, steps), r) <= 1
  {
    if |steps| > 0 {
      var before := Run(desk, steps[..|steps| - 1]);
      RunsStaySound(desk, steps[..|steps| - 1]);
      StepKeeps(before, steps[|steps| - 1]);
      KeepsTransitive(desk, before, Run(desk, steps));
    }
    hide Sum;
    forall r: nat
      ensures Submissions(Run(desk, steps), r) <= 1
    {
      assert RightsLeft(Run(desk, steps), r) + Submissions(Run(desk, steps), r) <= 1;
    }
  }

  lemma EmptyDeskIsSound(now: int)
    ensures Sound(Desk(now, [], [], []))
  {}

  /** Once claimed and not armed, a refund is reconciled only: no run submits it (again). */
  lemma AmbiguousRefundIsNeverResubmitted(desk: Desk, steps: seq<Step>, refund: RefundId)
    requires Sound(desk) && refund < |desk.rows| && RightsLeft(desk, refund) == 0
    ensures Submissions(Run(desk, steps), refund) == Submissions(desk, refund)
  {
    hide Sum, Run;
    RunsStaySound(desk, steps);
    var more := Run(desk, steps).submissions[|desk.submissions|..];
    assert desk.submissions + more == Run(desk, steps).submissions;
    SumConcat(desk.submissions, more, SubmittedFor(refund));
  }

  // ---------- What may still be submitted ----------

  /** How rows and tasks came about: a row beyond its first status has been claimed, and a
      task that listed the provider's refunds can refund there. */
  ghost predicate Traced(desk: Desk) {
    && (forall r :: 0 <= r < |desk.rows| && desk.rows[r].status != Requested ==> desk.rows[r].attempts > 0)
    && (forall t :: 0 <= t < |desk.tasks| ==>
          desk.tasks[t].refund < |desk.rows| && TracedTask(desk.tasks[t], desk.rows[desk.tasks[t].refund]))
    && (forall t :: 0 <= t < |desk.tasks| && desk.tasks[t].phase.Answered? ==>
          WasSubmitted(desk.submissions, desk.tasks[t].refund))
  }

  predicate TracedTask(task: Task, row: Row) {
    && task.seen.viaPaystack == row.viaPaystack && task.seen.hasProviderTransaction == row.hasProviderTransaction
    && (task.phase != Read && task.phase != Over ==> row.attempts > 0)
    && (task.phase.Listed? || task.phase == Marked ==> ThroughProvider(row))
  }

  predicate WasSubmitted(submissions: seq<Submission>, refund: RefundId) {
    exists p :: 0 <= p < |submissions| && submissions[p].refund == refund
  }

  predicate ThroughProvider(row: Row) {
    row.viaPaystack && row.hasProviderTransaction
  }

  predicate SameRoutes(a: Desk, b: Desk) {
    && |a.rows| <= |b.rows|
    && forall r :: 0 <= r < |a.rows| ==> ThroughProvider(a.rows[r]) == ThroughProvider(b.rows[r])
  }

  /** One row and one task change. */
  lemma ChangeKeepsTraced(desk: Desk, task: nat, row: Row, phase: Phase, made: seq<Submission>)
    requires Traced(desk) && task < |desk.tasks|
    requires var before := desk.rows[desk.tasks[task].refund];
             && row.viaPaystack == before.viaPaystack && row.hasProviderTransaction == before.hasProviderTransaction
             && row.amount == before.amount
             && before.attempts <= row.attempts && (row.status != Requested ==> row.attempts > 0)
    requires TracedTask(desk.tasks[task].(phase := phase), row)
    requires phase.Answered? ==> WasSubmitted(desk.submissions + made, desk.tasks[task].refund)
    ensures var b := Changed(desk, task, row, phase, made);
            Traced(b) && SameRoutes(desk, b)
  {
    var b := Changed(desk, task, row, phase, made);
    forall t | 0 <= t < |b.tasks| && b.tasks[t].phase.Answered?
      ensures WasSubmitted(b.submissions, b.tasks[t].refund)
    {
      if t != task {
        SubmittedStays(desk.submissions, made, b.tasks[t].refund);
      }
    }
  }

  lemma SubmittedStays(submissions: seq<Submission>, more: seq<Submission>, refund: RefundId)
    requires WasSubmitted(submissions, refund)
    ensures WasSubmitted(submissions + more, refund)
  {
    var p :| 0 <= p < |submissions| && submissions[p].refund == refund;
    assert (submissions + more)[p].refund == refund;
  }

  lemma OtherStepKeepsTraced(desk: Desk, step: Step)
    requires Traced(desk) && (step.Tick? || step.Require? || step.ReadRow? || step.Confirm?)
    ensures Traced(Apply(desk, step)) && SameRoutes(desk, Apply(desk, step))
  {
    var b := Apply(desk, step);
    if step.Confirm? && b != desk {
      assert b.rows[step.refund].attempts == desk.rows[step.refund].attempts > 0;
    }
  }

  predicate ByTask(step: Step) {
    !step.Tick? && !step.Require? && !step.ReadRow? && !step.Confirm?
  }

  function MadeBy(desk: Desk, step: Step): seq<Submission>
    requires ByTask(step)
  {
    if step.Submit? && InPhase(desk, step.task, Marked)
    then [Submission(desk.tasks[step.task].refund, desk.tasks[step.task].seen.amount)] else []
  }

  /** A task's step changes its row, its phase and the submissions. */
  lemma TaskStepChanges(desk: Desk, step: Step)
    requires ByTask(step) && step.task < |desk.tasks| && desk.tasks[step.task].refund < |desk.rows|
    ensures var b, task := Apply(desk, step), step.task;
            && |b.tasks| == |desk.tasks| && |b.rows| == |desk.rows|
            && b == Changed(desk, task, b.rows[desk.tasks[task].refund], b.tasks[task].phase, MadeBy(desk, step))
  {
    hide IdText, FindRefund, RecordAnswer, Manual, ClaimRow;
  }

  lemma TaskStepTraces(desk: Desk, step: Step)
    requires ByTask(step) && step.task < |desk.tasks| && desk.tasks[step.task].refund < |desk.rows|
    requires var row := desk.rows[desk.tasks[step.task].refund];
             TracedTask(desk.tasks[step.task], row) && (row.status != Requested ==> row.attempts > 0)
    ensures var b, refund := Apply(desk, step), desk.tasks[step.task].refund;
            && |b.tasks| == |desk.tasks| && |b.rows| == |desk.rows|
            && TracedTask(desk.tasks[step.task].(phase := b.tasks[step.task].phase), b.rows[refund])
            && b.rows[refund].viaPaystack == desk.rows[refund].viaPaystack
            && b.rows[refund].hasProviderTransaction == desk.rows[refund].hasProviderTransaction
            && b.rows[refund].amount == desk.rows[refund].amount
            && desk.rows[refund].attempts <= b.rows[refund].attempts
            && (b.tasks[step.task].phase.Answered? ==>
                  desk.tasks[step.task].phase.Answered? || MadeBy(desk, step) != [])
            && (b.rows[refund].status != Requested ==> b.rows[refund].attempts > 0)
  {
    hide IdText, FindRefund;
  }

  lemma AnswersFollowSubmissions(desk: Desk, step: Step)
    requires Traced(desk) && ByTask(step) && step.task < |desk.tasks|
    ensures Apply(desk, step).tasks[step.task].phase.Answered? ==>
              WasSubmitted(desk.submissions + MadeBy(desk, step), desk.tasks[step.task].refund)
  {
    TaskStepTraces(desk, step);
    var refund, made := desk.tasks[step.task].refund, MadeBy(desk, step);
    if made != [] {
      assert (desk.submissions + made)[|desk.submissions|].refund == refund;
    } else if desk.tasks[step.task].phase.Answered? {
      SubmittedStays(desk.submissions, made, refund);
    }
    hide Apply, TracedTask;
  }

  lemma StepKeepsTraced(desk: Desk, step: Step)
    requires Traced(desk)
    ensures Traced(Apply(desk, step)) && SameRoutes(desk, Apply(desk, step))
  {
    if !ByTask(step) {
      OtherStepKeepsTraced(desk, step);
    } else if step.task < |desk.tasks| {
      var b, task := Apply(desk, step), step.task;
      TaskStepChanges(desk, step);
      TaskStepTraces(desk, step);
      AnswersFollowSubmissions(desk, step);
      hide Apply, TracedTask, WasSubmitted;
      ChangeKeepsTraced(desk, task, b.rows[desk.tasks[task].refund], b.tasks[task].phase, MadeBy(desk, step));
    }
  }

  /** Without a provider to submit to, nothing is ever submitted. */
  lemma {:induction false} NeverWithoutProvider(desk: Desk, steps: seq<Step>, refund: RefundId)
    requires Traced(desk) && refund < |desk.rows| && !ThroughProvider(desk.rows[refund])
    ensures var after := Run(desk, steps);
            && Traced(after) && refund < |after.rows| && !ThroughProvider(after.rows[refund])
            && Submissions(after, refund) == Submissions(desk, refund)
  {
    if |steps| > 0 {
      var before, step := Run(desk, steps[..|steps| - 1]), steps[|steps| - 1];
      NeverWithoutProvider(desk, steps[..|steps| - 1], refund);
      StepKeepsTraced(before, step);
      assert Submissions(Apply(before, step), refund) == Submissions(before, refund) by {
        if step.Submit? && InPhase(before, step.task, Marked) {
          assert TracedTask(before.tasks[step.task], before.rows[before.tasks[step.task].refund]);
          OtherSubmission(before, step, refund);
        }
      }
      hide Apply, Submissions, Traced;
    }
  }

  lemma OtherSubmission(desk: Desk, step: Step, refund: RefundId)
    requires step.Submit? && InPhase(desk, step.task, Marked)
    ensures Submissions(Apply(desk, step), refund) ==
            Submissions(desk, refund) + if desk.tasks[step.task].refund == refund then 1 else 0
  {
    var t := desk.tasks[step.task];
    SumAppend(desk.submissions, Submission(t.refund, t.seen.amount), SubmittedFor(refund));
    hide Sum;
  }

  /** Some continuation submits the refund. */
  ghost predicate MaySubmit(desk: Desk, refund: RefundId) {
    exists steps :: Submissions(Run(desk, steps), refund) > Submissions(desk, refund)
  }

  lemma {:induction false} RunsFirst(desk: Desk, step: Step, steps: seq<Step>)
    ensures Run(desk, [step] + steps) == Run(Apply(desk, step), steps)
  {
    hide Apply;
    if |steps| == 0 {
      assert [step] + steps == [step] && [step][..0] == [];
    } else {
      var n := |steps| - 1;
      RunsFirst(desk, step, steps[..n]);
      assert ([step] + steps)[..n + 1] == [step] + steps[..n];
    }
  }

  lemma MaySubmitAfter(desk: Desk, step: Step, refund: RefundId)
    requires MaySubmit(Apply(desk, step), refund) && Apply(desk, step).submissions == desk.submissions
    ensures MaySubmit(desk, refund)
  {
    var steps :| Submissions(Run(Apply(desk, step), steps), refund) > Submissions(Apply(desk, step), refund);
    RunsFirst(desk, step, steps);
    assert Submissions(Run(desk, [step] + steps), refund) > Submissions(desk, refund);
  }

  /** An armed task can always go on to submit, whatever has become of its row. */
  lemma ArmedMaySubmit(desk: Desk, task: nat)
    requires Sound(desk) && Traced(desk) && task < |desk.tasks| && Armed(desk.tasks[task])
    requires ThroughProvider(desk.rows[desk.tasks[task].refund])
    ensures MaySubmit(desk, desk.tasks[task].refund)
  {
    var refund := desk.tasks[task].refund;
    assert TracedTask(desk.tasks[task], desk.rows[refund]);
    hide RightsLeft, Submissions;
    var listed := if desk.tasks[task].phase == Claimed then Apply(desk, List(task, [])) else desk;
    var marked := if desk.tasks[task].phase == Marked then desk else Apply(listed, Mark(task));
    assert InPhase(marked, task, Marked) && marked.tasks[task].refund == refund;
    OtherSubmission(marked, Submit(task, Silence), refund);
    RunsFirst(marked, Submit(task, Silence), []);
    assert [Submit(task, Silence)] + [] == [Submit(task, Silence)];
    assert Run(marked, [Submit(task, Silence)]) == Apply(marked, Submit(task, Silence));
    if desk.tasks[task].phase != Marked {
      MaySubmitAfter(listed, Mark(task), refund);
    }
    if desk.tasks[task].phase == Claimed {
      MaySubmitAfter(desk, List(task, []), refund);
    }
  }

  /** So can a row that no worker has claimed. */
  lemma UnclaimedMaySubmit(desk: Desk, refund: RefundId)
    requires Sound(desk) && Traced(desk) && refund < |desk.rows| && desk.rows[refund].attempts == 0
    requires ThroughProvider(desk.rows[refund])
    ensures MaySubmit(desk, refund)
  {
    var row := desk.rows[refund];
    var lease := if row.leaseExpiresAt.Some? then row.leaseExpiresAt.value else desk.now;
    var wake := Latest(Latest(desk.now, row.nextAttemptAt), lease);
    var task := |desk.tasks|;
    var awake := Apply(desk, Tick(wake));
    var read := Apply(awake, ReadRow(refund));
    var claimed := Apply(read, Claim(task));
    assert row.status == Requested;
    assert claimed.tasks[task] == Task(refund, row, Claimed);
    assert claimed.rows[refund] == ClaimRow(row, wake);
    StepKeeps(desk, Tick(wake));
    StepKeeps(awake, ReadRow(refund));
    StepKeeps(read, Claim(task));
    StepKeepsTraced(desk, Tick(wake));
    StepKeepsTraced(awake, ReadRow(refund));
    StepKeepsTraced(read, Claim(task));
    hide Sound, Keeps, Traced;
    ArmedMaySubmit(claimed, task);
    MaySubmitAfter(read, Claim(task), refund);
    MaySubmitAfter(awake, ReadRow(refund), refund);
    MaySubmitAfter(desk, Tick(wake), refund);
  }

  function Latest(a: int, b: int): int {
    if a < b then b else a
  }

  /** Exactly which refunds may still be submitted: those that go through the provider and
      still have their right, with the row or with a task. */
  lemma MaySubmitExactly(desk: Desk, refund: RefundId)
    requires Sound(desk) && Traced(desk) && refund < |desk.rows|
    ensures MaySubmit(desk, refund) <==> ThroughProvider(desk.rows[refund]) && RightsLeft(desk, refund) > 0
  {
    if MaySubmit(desk, refund) {
      var steps :| Submissions(Run(desk, steps), refund) > Submissions(desk, refund);
      if RightsLeft(desk, refund) == 0 {
        AmbiguousRefundIsNeverResubmitted(desk, steps, refund);
      }
      if !ThroughProvider(desk.rows[refund]) {
        NeverWithoutProvider(desk, steps, refund);
      }
    }
    if ThroughProvider(desk.rows[refund]) && RightsLeft(desk, refund) > 0 {
      if desk.rows[refund].attempts == 0 {
        UnclaimedMaySubmit(desk, refund);
      } else {
        var task := SumPositive(desk.tasks, ArmedFor(refund));
        ArmedMaySubmit(desk, task);
      }
    }
  }

  /** An operator's confirmation does not disarm a worker.  Once a refund has been confirmed
      by hand, it may still be submitted exactly if it goes through the provider and a task
      for it is armed. */
  lemma ConfirmedMaySubmitExactly(desk: Desk, refund: RefundId, reference: string)
    requires Sound(desk) && Traced(desk) && refund < |desk.rows|
    requires desk.rows[refund].status == ManualRequired && |reference| >= 3
    ensures var after := Apply(desk, Confirm(refund, reference));
            && after.rows[refund].status == Refunded
            && (MaySubmit(after, refund) <==>
                  && ThroughProvider(desk.rows[refund])
                  && exists t :: 0 <= t < |desk.tasks| && desk.tasks[t].refund == refund && Armed(desk.tasks[t]))
  {
    var after := Apply(desk, Confirm(refund, reference));
    StepKeeps(desk, Confirm(refund, reference));
    StepKeepsTraced(desk, Confirm(refund, reference));
    MaySubmitExactly(after, refund);
    if RightsLeft(after, refund) > 0 {
      var task := SumPositive(desk.tasks, ArmedFor(refund));
      assert Armed(desk.tasks[task]);
    }
    if t :| 0 <= t < |desk.tasks| && desk.tasks[t].refund == refund && Armed(desk.tasks[t]) {
      SumAtLeast(desk.tasks, t, ArmedFor(refund));
    }
    hide Sum, MaySubmit;
  }

  /** Every run from an empty desk meets both invariants. */
  lemma {:induction false} RunsStayTraced(now: int, steps: seq<Step>)
    ensures var desk := Run(Desk(now, [], [], []), steps);
            Sound(desk) && Traced(desk)
  {
    EmptyDeskIsSound(now);
    if |steps| > 0 {
      var before := Run(Desk(now, [], [], []), steps[..|steps| - 1]);
      RunsStayTraced(now, steps[..|steps| - 1]);
      StepKeeps(before, steps[|steps| - 1]);
      StepKeepsTraced(before, steps[|steps| - 1]);
      hide Sound, Keeps, Traced, Apply;
    }
  }

  // ---------- How a row comes to be refunded ----------

  /** A step that refunds a row for good reason: an operator confirms it by hand, or a worker
      records as processed the answer to a submission that was made for it, or a refund of its
      amount in naira that the provider listed. */
  ghost predicate Settles(desk: Desk, step: Step, refund: RefundId) {
    && refund < |desk.rows|
    && match step {
      case Confirm(r, reference) => r == refund && desk.rows[refund].status == ManualRequired && |reference| >= 3
      case Record(task) =>
        && task < |desk.tasks| && desk.tasks[task].refund == refund
        && (match desk.tasks[task].phase
            case Answered(answer) => answer.status == Processed && WasSubmitted(desk.submissions, refund)
            case Listed(Some(answer)) => answer.status == Processed && Matches(answer, desk.rows[refund].amount)
            case _ => false)
      case _ => false
    }
  }

  /** Exactly those steps refund a row that is not refunded. */
  lemma RefundedExactly(desk: Desk, step: Step, refund: RefundId)
    requires Sound(desk) && Traced(desk)
    requires refund < |desk.rows| && desk.rows[refund].status != Refunded
    ensures Apply(desk, step).rows[refund].status == Refunded <==> Settles(desk, step, refund)
  {
    hide IdText, FindRefund, RightsLeft, Submissions;
    if step.Record? && step.task < |desk.tasks| {
      assert FoundMatches(desk.tasks[step.task]);
    }
  }

  /** So in every run from an empty desk, whatever is refunded was settled by such a step. */
  lemma {:induction false} RefundedRowsWereSettled(now: int, steps: seq<Step>, refund: RefundId)
    requires refund < |Run(Desk(now, [], [], []), steps).rows|
    requires Run(Desk(now, [], [], []), steps).rows[refund].status == Refunded
    ensures exists k :: 0 <= k < |steps| && Settles(Run(Desk(now, [], [], []), steps[..k]), steps[k], refund)
  {
    hide Sound, Traced, Apply, Settles;
    var n := |steps| - 1;
    var before := Run(Desk(now, [], [], []), steps[..n]);
    RunsStayTraced(now, steps[..n]);
    if refund < |before.rows| && before.rows[refund].status == Refunded {
      RefundedRowsWereSettled(now, steps[..n], refund);
      var k :| 0 <= k < n && Settles(Run(Desk(now, [], [], []), steps[..n][..k]), steps[..n][k], refund);
      assert steps[..n][..k] == steps[..k];
      assert Settles(Run(Desk(now, [], [], []), steps[..k]), steps[k], refund);
    } else {
      RefundedNowIsSettledNow(before, steps[n], refund);
    }
  }

  lemma RefundedNowIsSettledNow(desk: Desk, step: Step, refund: RefundId)
    requires Sound(desk) && Traced(desk)
    requires refund < |Apply(desk, step).rows| && Apply(desk, step).rows[refund].status == Refunded
    requires refund < |desk.rows| ==> desk.rows[refund].status != Refunded
    ensures Settles(desk, step, refund)
  {
    if refund < |desk.rows| {
      RefundedExactly(desk, step, refund);
    }
    hide Sound, Traced, Settles, IdText, FindRefund;
  }

  // ---------- What each step writes ----------

  /** A row is read when it is not refunded, its next attempt is due and nobody leases it. */
  lemma ReadingIsExact(desk: Desk, refund: RefundId)
    ensures var after := Apply(desk, ReadRow(refund));
            if && refund < |desk.rows| && desk.rows[refund].status != Refunded
               && desk.rows[refund].nextAttemptAt <= desk.now
               && (desk.rows[refund].leaseExpiresAt.Some? ==> desk.rows[refund].leaseExpiresAt.value <= desk.now)
            then after == desk.(tasks := desk.tasks + [Task(refund, desk.rows[refund], Read)])
            else after == desk
  {}

  /** A claim succeeds exactly if nobody has claimed or moved the row since it was read, and
      takes a lease of two minutes with the next attempt in one. */
  lemma ClaimIsExact(desk: Desk, task: nat)
    requires InPhase(desk, task, Read)
    ensures var t, after := desk.tasks[task], Apply(desk, Claim(task));
            var row := desk.rows[t.refund];
            if row.attempts == t.seen.attempts && row.status == t.seen.status then
              && after.tasks == desk.tasks[task := Task(t.refund, t.seen, Claimed)]
              && after.submissions == desk.submissions && after.now == desk.now
              && after.rows == desk.rows[t.refund := row.(
                   attempts := row.attempts + 1, leaseExpiresAt := Some(desk.now + 120000),
                   nextAttemptAt := desk.now + 60000)]
            else
              after == desk.(tasks := desk.tasks[task := Task(t.refund, t.seen, Over)])
  {}

  /** Handing a row to an operator lets go of its lease and tries again in five minutes, unless
      the row is refunded. */
  lemma HandingOverIsExact(desk: Desk, task: nat)
    requires task < |desk.tasks| && desk.tasks[task].refund < |desk.rows|
    ensures var t, after := desk.tasks[task], EndManually(desk, task);
            var row := desk.rows[t.refund];
            && after.tasks == desk.tasks[task := Task(t.refund, t.seen, Over)]
            && after.submissions == desk.submissions && after.now == desk.now
            && after.rows == desk.rows[t.refund :=
                 if row.status == Refunded then row
                 else row.(status := ManualRequired, leaseExpiresAt := None, nextAttemptAt := desk.now + 300000)]
  {}

  /** A claimed row without a provider goes to an operator; for the others the task looks for
      the row's refund among the provider's. */
  lemma ListingStepIsExact(desk: Desk, task: nat, known: seq<ProviderRefund>)
    requires InPhase(desk, task, Claimed)
    ensures var t, after := desk.tasks[task], Apply(desk, List(task, known));
            if !t.seen.viaPaystack || !t.seen.hasProviderTransaction then after == EndManually(desk, task)
            else
              && after.rows == desk.rows && after.submissions == desk.submissions && after.now == desk.now
              && after.tasks == desk.tasks[task := after.tasks[task]]
              && after.tasks[task].refund == t.refund && after.tasks[task].seen == t.seen
              && after.tasks[task].phase.Listed?
              && var found := after.tasks[task].phase.found;
              && (found.Some? ==> found.value in known && Matches(found.value, t.seen.amount))
              && (found.None? ==> forall k :: 0 <= k < |known| ==> !Matches(known[k], t.seen.amount))
  {
    ListingIsExact(known, desk.tasks[task].seen.amount);
    hide FindRefund;
  }

  /** Only the first attempt goes on to submit; a later one that found nothing goes to an
      operator. */
  lemma MarkingIsExact(desk: Desk, task: nat)
    requires InPhase(desk, task, Listed(None))
    ensures var t, after := desk.tasks[task], Apply(desk, Mark(task));
            if t.seen.attempts > 0 then after == EndManually(desk, task)
            else
              after == desk.(
                rows := desk.rows[t.refund := desk.rows[t.refund].(status := Processing)],
                tasks := desk.tasks[task := Task(t.refund, t.seen, Marked)])
  {}

  /** Submitting asks for the row's amount, once; an error sends the row to an operator, and
      silence ends the task. */
  lemma SubmittingIsExact(desk: Desk, task: nat, reply: Reply)
    requires InPhase(desk, task, Marked)
    ensures var t, after := desk.tasks[task], Apply(desk, Submit(task, reply));
            && after.submissions == desk.submissions + [Submission(t.refund, t.seen.amount)]
            && (reply.Error? ==> after == EndManually(desk, task).(submissions := after.submissions))
            && (!reply.Error? ==>
                  && after.rows == desk.rows && after.now == desk.now
                  && after.tasks == desk.tasks[task :=
                       Task(t.refund, t.seen, if reply.Answer? then Answered(reply.refund) else Over)])
  {}

  function Decimal(text: string): nat {
    if |text| == 0 then 0
    else
      var last := text[|text| - 1];
      10 * Decimal(text[..|text| - 1]) + if '0' <= last <= '9' then (last - '0') as nat else 0
  }

  /** The reference on file is the provider's number in decimal. */
  lemma {:induction false} IdTextIsDecimal(id: nat)
    ensures Decimal(IdText(id)) == id && |IdText(id)| > 0
  {
    var digit := id % 10;
    assert '0' <= DIGITS[digit] <= '9' && (DIGITS[digit] - '0') as nat == digit;
    if id >= 10 {
      IdTextIsDecimal(id / 10);
      assert IdText(id)[..|IdText(id)| - 1] == IdText(id / 10);
    } else {
      assert IdText(id) == [DIGITS[id]] && [DIGITS[id]][..0] == [];
    }
  }

  /** What is recorded of a refund the provider knows: processed, it is final, with its number
      for a reference; pending, the row waits for it; anything else goes to an operator. */
  lemma RecordIsExact(desk: Desk, task: nat, answer: ProviderRefund)
    requires task < |desk.tasks| && desk.tasks[task].refund < |desk.rows|
    requires desk.tasks[task].phase == Answered(answer) || desk.tasks[task].phase == Listed(Some(answer))
    ensures var t, after := desk.tasks[task], Apply(desk, Record(task));
            var row, row' := desk.rows[t.refund], after.rows[t.refund];
            && after.tasks == desk.tasks[task := Task(t.refund, t.seen, Over)]
            && after.submissions == desk.submissions && after.now == desk.now
            && after.rows == desk.rows[t.refund := row']
            && (answer.status == Processed ==>
                  && row'.confirmation.Some? && Decimal(row'.confirmation.value) == answer.id
                  && row' == row.(
                       status := Refunded, providerRefund := Some(answer.id), leaseExpiresAt := None,
                       confirmation := row'.confirmation, transactionRefunded := true))
            && (answer.status == Pending ==>
                  row' == row.(status := Processing, providerRefund := Some(answer.id), leaseExpiresAt := None))
            && (answer.status == OtherStatus ==> after == EndManually(desk, task))
  {
    IdTextIsDecimal(answer.id);
    hide IdText, Decimal;
  }

  /** An operator confirms only what awaits an operator, with a reference of three characters
      or more. */
  lemma OperatorIsExact(desk: Desk, refund: RefundId, reference: string)
    ensures Apply(desk, Confirm(refund, reference)) ==
            if refund < |desk.rows| && desk.rows[refund].status == ManualRequired && |reference| >= 3 then
              desk.(rows := desk.rows[refund := desk.rows[refund].(
                status := Refunded, confirmation := Some(reference), transactionRefunded := true)])
            else desk
  {}

  // ---------- Reopening ----------

  /** Whether a step writes PROCESSING to a row without looking at the row's status. */
  predicate WritesBlindly(desk: Desk, step: Step, refund: RefundId) {
    match step
    case Mark(task) =>
      InPhase(desk, task, Listed(None)) && desk.tasks[task].refund == refund && desk.tasks[task].seen.attempts == 0
    case Record(task) =>
      && task < |desk.tasks| && desk.tasks[task].refund == refund
      && match desk.tasks[task].phase {
        case Answered(answer) => answer.status == Pending
        case Listed(Some(answer)) => answer.status == Pending
        case _ => false
      }
    case _ => false
  }

  /** A refunded row can be reopened, and only by the writes of PROCESSING: a worker about to
      submit, or one recording that the provider still calls the refund pending.  Every
      other write leaves a refunded row refunded. */
  lemma ReopeningIsExact(desk: Desk, step: Step, refund: RefundId)
    requires refund < |desk.rows| && desk.rows[refund].status == Refunded
    ensures Apply(desk, step).rows[refund].status == Refunded <==> !WritesBlindly(desk, step, refund)
  {
    hide IdText;
  }

  // Such runs exist.  A slow worker has read and claimed the row and got "pending" for an
  // answer; its lease runs out, a second worker records the refund as processed, and then
  // the first one writes what it knew.

  const NEWS := ProviderRefund(5, 100, true, Processed)
  const OLD_NEWS := ProviderRefund(5, 100, true, Pending)
  const RACE: seq<Step> := [
    Require(100, true, true), ReadRow(0), Claim(0), List(0, [OLD_NEWS]),
    Tick(120000), ReadRow(0), Claim(1), List(1, [NEWS]), Record(1), Record(0)]

  /** The desk after the first n steps of a run that began with an empty one. */
  function Played(run: seq<Step>, n: nat): Desk
    requires n <= |run|
  {
    if n == 0 then Desk(0, [], [], []) else Apply(Played(run, n - 1), run[n - 1])
  }

  lemma RefundedRowsMayReopen()
    ensures |Played(RACE, 9).rows| == 1 && Played(RACE, 9).rows[0].status == Refunded
    ensures |Played(RACE, 10).rows| == 1
    ensures Played(RACE, 10).rows[0].status == Processing && Played(RACE, 10).rows[0].transactionRefunded
  {
    var unread := Row(100, true, true, Requested, 0, 0, None, None, None, false);
    var once := ClaimRow(unread, 0);
    var twice := ClaimRow(once, 120000);
    assert Played(RACE, 1) == Desk(0, [unread], [], []);
    assert Played(RACE, 2) == Desk(0, [unread], [Task(0, unread, Read)], []);
    assert Played(RACE, 3) == Desk(0, [once], [Task(0, unread, Claimed)], []);
    var waiting := Task(0, unread, Listed(Some(OLD_NEWS)));
    assert Played(RACE, 4) == Desk(0, [once], [waiting], []);
    assert Played(RACE, 5) == Desk(120000, [once], [waiting], []);
    assert Played(RACE, 6) == Desk(120000, [once], [waiting, Task(0, once, Read)], []);
    assert Played(RACE, 7) == Desk(120000, [twice], [waiting, Task(0, once, Claimed)], []);
    assert Played(RACE, 8) == Desk(120000, [twice], [waiting, Task(0, once, Listed(Some(NEWS)))], []);
    assert Played(RACE, 9) == Desk(120000, [RecordAnswer(twice, NEWS, 120000)], [waiting, Task(0, once, Over)], []);
    assert Played(RACE, 10).rows == [RecordAnswer(RecordAnswer(twice, NEWS, 120000), OLD_NEWS, 120000)];
  }

  // And a refund confirmed by hand may be submitted after that.  A slow worker has found no
  // refund at the provider and is about to submit; its lease runs out, a second worker finds
  // none either and hands the row to an operator, who confirms it; then the first goes on.

  const LATE: seq<Step> := [
    Require(100, true, true), ReadRow(0), Claim(0), List(0, []),
    Tick(120000), ReadRow(0), Claim(1), List(1, []), Mark(1), Confirm(0, "REF"), Mark(0), Submit(0, Silence)]

  lemma ConfirmedRefundsMayBeSubmitted()
    ensures |Played(LATE, 10).rows| == 1 && Played(LATE, 10).rows[0].status == Refunded
    ensures Played(LATE, 10).rows[0].confirmation == Some("REF") && Played(LATE, 10).submissions == []
    ensures Played(LATE, 12).submissions == [Submission(0, 100)]
  {
    var unread := Row(100, true, true, Requested, 0, 0, None, None, None, false);
    var once := ClaimRow(unread, 0);
    var twice := ClaimRow(once, 120000);
    var byHand := Manual(twice, 120000);
    var slow, quick := Task(0, unread, Listed(None)), Task(0, once, Listed(None));
    var confirmed := byHand.(status := Refunded, confirmation := Some("REF"), transactionRefunded := true);
    assert Played(LATE, 1) == Desk(0, [unread], [], []);
    assert Played(LATE, 2) == Desk(0, [unread], [Task(0, unread, Read)], []);
    assert Played(LATE, 3) == Desk(0, [once], [Task(0, unread, Claimed)], []);
    assert Played(LATE, 4) == Desk(0, [once], [slow], []);
    assert Played(LATE, 5) == Desk(120000, [once], [slow], []);
    assert Played(LATE, 6) == Desk(120000, [once], [slow, Task(0, once, Read)], []);
    assert Played(LATE, 7) == Desk(120000, [twice], [slow, Task(0, once, Claimed)], []);
    assert Played(LATE, 8) == Desk(120000, [twice], [slow, quick], []);
    assert Played(LATE, 9) == Desk(120000, [byHand], [slow, quick.(phase := Over)], []);
    assert Played(LATE, 10) == Desk(120000, [confirmed], [slow, quick.(phase := Over)], []);
    assert Played(LATE, 11).tasks == [slow.(phase := Marked), quick.(phase := Over)];
    assert |Played(LATE, 11).rows| == 1;
  }
}
