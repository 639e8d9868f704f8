/** How an intent comes to be where it is: the operations that went through, in order, over whole runs of the
    vault, and exactly when each operation goes through (packages/vault/src/intent-manager.ts,
    packages/vault/src/budget.ts). */
module VaultHistory {
  import opened Wrappers
  import opened MoneyMath
  import opened VaultModel

  function Empty(u: Unit): State {
    State(u, map[], map[])
  }

  /** The k-th operation went through. */
  ghost predicate Went(u: Unit, ops: seq<Op>, k: nat) {
    k < |ops| && Apply(Run(Empty(u), ops[..k]), ops[k]).Ok?
  }

  ghost predicate DeclaredAt(u: Unit, ops: seq<Op>, k: nat, id: string) {
    Went(u, ops, k) && ops[k].Declare? && ops[k].id == id
  }

  ghost predicate ApprovedAt(u: Unit, ops: seq<Op>, k: nat, id: string) {
    Went(u, ops, k) && ops[k] == Approve(id) && exists j: nat :: j < k && DeclaredAt(u, ops, j, id)
  }

  ghost predicate StartedAt(u: Unit, ops: seq<Op>, k: nat, id: string) {
    Went(u, ops, k) && ops[k] == MarkExecuting(id) && exists j: nat :: j < k && ApprovedAt(u, ops, j, id)
  }

  ghost predicate ExecutedAt(u: Unit, ops: seq<Op>, k: nat, id: string) {
    Went(u, ops, k) && ops[k] == RecordExecution(id) && exists j: nat :: j < k && StartedAt(u, ops, j, id)
  }

  ghost predicate VerifiedAt(u: Unit, ops: seq<Op>, k: nat, id: string) {
    Went(u, ops, k) && ops[k] == Verify(id) && exists j: nat :: j < k && ExecutedAt(u, ops, j, id)
  }

  ghost predicate FailedAt(u: Unit, ops: seq<Op>, k: nat, id: string) {
    Went(u, ops, k) && ops[k] == RecordFailure(id) && exists j: nat :: j < k && StartedAt(u, ops, j, id)
  }

  ghost predicate RejectedAt(u: Unit, ops: seq<Op>, k: nat, id: string) {
    Went(u, ops, k) && ops[k] == Reject(id) && exists j: nat :: j < k && DeclaredAt(u, ops, j, id)
  }

  /** The chain of operations that a status stands for, among the first n operations. */
  ghost predicate Earned(u: Unit, ops: seq<Op>, n: nat, id: string, status: Status) {
    match status
    case Declared => exists k: nat :: k < n && DeclaredAt(u, ops, k, id)
    case Approved => exists k: nat :: k < n && ApprovedAt(u, ops, k, id)
    case Rejected => exists k: nat :: k < n && RejectedAt(u, ops, k, id)
    case Executing => exists k: nat :: k < n && StartedAt(u, ops, k, id)
    case Executed => exists k: nat :: k < n && ExecutedAt(u, ops, k, id)
    case Verified => exists k: nat :: k < n && VerifiedAt(u, ops, k, id)
    case Failed => exists k: nat :: k < n && FailedAt(u, ops, k, id)
  }

  // ---------------------------------------------------------------- when an operation goes through

  /** Each move of the lifecycle goes through exactly from its own statuses. */
  lemma MovesExactly(s: State, id: string)
    ensures Apply(s, Approve(id)).Ok? <==> id in s.intents && s.intents[id].status == Declared
    ensures Apply(s, Reject(id)).Ok? <==> id in s.intents && s.intents[id].status in {Declared, Approved}
    ensures Apply(s, MarkExecuting(id)).Ok? <==> id in s.intents && s.intents[id].status == Approved
    ensures Apply(s, Verify(id)).Ok? <==> id in s.intents && s.intents[id].status == Executed
    ensures Apply(s, RecordExecution(id)).Ok? ==> id in s.intents && s.intents[id].status == Executing
    ensures Apply(s, RecordFailure(id)).Ok? ==> id in s.intents && s.intents[id].status in {Executing, Executed}
    ensures id !in s.intents ==> forall op :: op in {Approve(id), Reject(id), MarkExecuting(id), Verify(id), RecordExecution(id), RecordFailure(id)}
                                              ==> Apply(s, op) == Err(IntentNotFound)
    ensures id in s.intents ==> forall op :: op in {Approve(id), Reject(id), MarkExecuting(id), Verify(id)} && Apply(s, op).Err?
                                             ==> Apply(s, op) == Err(InvalidTransition)
  {
    hide Spend, ReverseSpend;
  }

  /** Which intent an operation may change, and to what. */
  function Target(op: Op): Option<(string, Status)> {
    match op
    case Declare(id, _, _) => Some((id, Declared))
    case Approve(id) => Some((id, Approved))
    case Reject(id) => Some((id, Rejected))
    case MarkExecuting(id) => Some((id, Executing))
    case RecordExecution(id) => Some((id, Executed))
    case Verify(id) => Some((id, Verified))
    case RecordFailure(id) => Some((id, Failed))
    case _ => None
  }

  /** An operation that goes through moves only its intent, to its status, and never touches the intent's amount
      or envelope; a declared intent is new. */
  lemma OnlyTargetMoves(s: State, op: Op, id: string)
    requires Apply(s, op).Ok? && forall j :: j in s.intents ==> s.intents[j].id == j
    ensures var t := Apply(s, op).value;
            && (Target(op).Some? && Target(op).value.0 == id ==>
                  && id in t.intents && t.intents[id].id == id && t.intents[id].status == Target(op).value.1
                  && (op.Declare? <==> id !in s.intents)
                  && (id in s.intents ==> t.intents[id] == s.intents[id].(status := Target(op).value.1)))
            && (!(Target(op).Some? && Target(op).value.0 == id) ==> (id in t.intents <==> id in s.intents) && (id in s.intents ==> t.intents[id] == s.intents[id]))
  {
    hide Allocation, Charge, Affordable, Scaled;
  }

  lemma RunKeyed(u: Unit, ops: seq<Op>)
    ensures forall j :: j in Run(Empty(u), ops).intents ==> Run(Empty(u), ops).intents[j].id == j
  {
    hide Run, ChargedTotal, Charge;
    RunIsSound(u, ops);
    var s := Run(Empty(u), ops);
    forall j | j in s.intents
      ensures s.intents[j].id == j
    {
      assert IntentOk(s, j);
    }
  }

  /** Rejected, verified and failed intents never change again. */
  lemma FinalStays(u: Unit, ops: seq<Op>, op: Op, id: string)
    requires var s := Run(Empty(u), ops); id in s.intents && s.intents[id].status in {Rejected, Verified, Failed}
    ensures var s, t := Run(Empty(u), ops), Run(Empty(u), ops + [op]); id in t.intents && t.intents[id] == s.intents[id]
  {
    hide Apply;
    var s := Run(Empty(u), ops);
    assert (ops + [op])[..|ops|] == ops;
    RunKeyed(u, ops);
    MovesExactly(s, id);
    if Apply(s, op).Ok? {
      OnlyTargetMoves(s, op, id);
    }
  }

  // ---------------------------------------------------------------- whole runs

  lemma WentEarlier(u: Unit, ops: seq<Op>, op: Op, k: nat)
    requires Went(u, ops, k)
    ensures Went(u, ops + [op], k) && (ops + [op])[k] == ops[k]
  {
    assert (ops + [op])[..k] == ops[..k];
  }

  lemma AllWentEarlier(u: Unit, ops: seq<Op>, op: Op)
    ensures forall k: nat :: Went(u, ops, k) ==> Went(u, ops + [op], k) && k < |ops| && (ops + [op])[k] == ops[k]
  {
    forall k: nat | Went(u, ops, k)
      ensures Went(u, ops + [op], k) && k < |ops| && (ops + [op])[k] == ops[k]
    {
      WentEarlier(u, ops, op, k);
    }
  }

  lemma EarnedStays(u: Unit, ops: seq<Op>, op: Op, id: string, status: Status)
    requires Earned(u, ops, |ops|, id, status)
    ensures Earned(u, ops + [op], |ops|, id, status)
  {
    hide Went;
    AllWentEarlier(u, ops, op);
    var now := ops + [op];
    assert forall k: nat :: DeclaredAt(u, ops, k, id) ==> DeclaredAt(u, now, k, id);
    assert forall k: nat :: ApprovedAt(u, ops, k, id) ==> ApprovedAt(u, now, k, id);
    assert forall k: nat :: StartedAt(u, ops, k, id) ==> StartedAt(u, now, k, id);
    assert forall k: nat :: ExecutedAt(u, ops, k, id) ==> ExecutedAt(u, now, k, id);
    assert forall k: nat :: VerifiedAt(u, ops, k, id) ==> VerifiedAt(u, now, k, id);
    assert forall k: nat :: FailedAt(u, ops, k, id) ==> FailedAt(u, now, k, id);
    assert forall k: nat :: RejectedAt(u, ops, k, id) ==> RejectedAt(u, now, k, id);
  }

  lemma EarnedLater(u: Unit, ops: seq<Op>, n: nat, id: string, status: Status)
    requires Earned(u, ops, n, id, status) && n <= |ops|
    ensures Earned(u, ops, |ops|, id, status)
  {
    hide DeclaredAt, ApprovedAt, RejectedAt, StartedAt, ExecutedAt, VerifiedAt, FailedAt;
  }

  lemma NewStep(u: Unit, ops: seq<Op>, op: Op)
    requires Apply(Run(Empty(u), ops), op).Ok?
    ensures Went(u, ops + [op], |ops|) && (ops + [op])[|ops|] == op
    ensures Run(Empty(u), ops + [op]) == Apply(Run(Empty(u), ops), op).value
  {
    assert (ops + [op])[..|ops|] == ops;
  }

  /** A last step on top of the chain of the status before it. */
  lemma StepFollows(u: Unit, ops: seq<Op>, n: nat, id: string, from: Status)
    requires n < |ops| && Went(u, ops, n) && Earned(u, ops, n, id, from)
    requires match ops[n]
             case Approve(i) => i == id && from == Declared
             case Reject(i) => i == id && from in {Declared, Approved}
             case MarkExecuting(i) => i == id && from == Approved
             case RecordExecution(i) => i == id && from == Executing
             case Verify(i) => i == id && from == Executed
             case RecordFailure(i) => i == id && from in {Executing, Executed}
             case _ => false
    ensures Earned(u, ops, |ops|, id, Target(ops[n]).value.1)
  {
    hide Went;
    match ops[n] {
      case Approve(_) => assert ApprovedAt(u, ops, n, id);
      case Reject(_) => assert RejectedAt(u, ops, n, id);
      case MarkExecuting(_) => assert StartedAt(u, ops, n, id);
      case RecordExecution(_) => assert ExecutedAt(u, ops, n, id);
      case Verify(_) => assert VerifiedAt(u, ops, n, id);
      case RecordFailure(_) => assert FailedAt(u, ops, n, id);
    }
  }

  /** The operation that moves an intent adds its own step to the chain. */
  lemma StepEarns(u: Unit, ops: seq<Op>, op: Op, id: string)
    requires Apply(Run(Empty(u), ops), op).Ok? && Target(op).Some? && Target(op).value.0 == id
    requires id in Run(Empty(u), ops).intents ==> Earned(u, ops, |ops|, id, Run(Empty(u), ops).intents[id].status)
    ensures Earned(u, ops + [op], |ops + [op]|, id, Target(op).value.1)
  {
    hide Went, Apply, Run, Earned;
    var s, now := Run(Empty(u), ops), ops + [op];
    NewStep(u, ops, op);
    MovesExactly(s, id);
    if op.Declare? {
      DeclareEarns(u, now, |ops|, id);
    } else {
      EarnedStays(u, ops, op, id, s.intents[id].status);
      StepFollows(u, now, |ops|, id, s.intents[id].status);
    }
  }

  lemma DeclareEarns(u: Unit, ops: seq<Op>, n: nat, id: string)
    requires n < |ops| && Went(u, ops, n) && ops[n].Declare? && ops[n].id == id
    ensures Earned(u, ops, |ops|, id, Declared)
  {
    assert DeclaredAt(u, ops, n, id);
  }

  /** In every run an intent's status was earned: an approved one was declared and then approved; an executing
      one also marked after that; an executed one then recorded as executed, a verified one then verified; a
      failed one was started before it failed; a rejected one was declared before -- and each of these operations
      went through. */
  lemma {:induction false} StatusIsEarned(u: Unit, ops: seq<Op>, id: string)
    requires id in Run(Empty(u), ops).intents
    ensures Earned(u, ops, |ops|, id, Run(Empty(u), ops).intents[id].status)
  {
    hide Apply, Earned;
    var n := |ops| - 1;
    var before := Run(Empty(u), ops[..n]);
    assert ops == ops[..n] + [ops[n]];
    if id in before.intents {
      StatusIsEarned(u, ops[..n], id);
    }
    RunKeyed(u, ops[..n]);
    if Apply(before, ops[n]).Ok? {
      OnlyTargetMoves(before, ops[n], id);
    }
    if Apply(before, ops[n]).Ok? && Target(ops[n]).Some? && Target(ops[n]).value.0 == id {
      StepEarns(u, ops[..n], ops[n], id);
    } else {
      EarnedStays(u, ops[..n], ops[n], id, before.intents[id].status);
      EarnedLater(u, ops, n, id, before.intents[id].status);
    }
  }

  /** So an intent whose amount was ever charged or that is being executed was approved before. */
  lemma ChargedWasApproved(u: Unit, ops: seq<Op>, id: string)
    requires var s := Run(Empty(u), ops); id in s.intents && s.intents[id].status in {Executing, Executed, Verified, Failed}
    ensures exists j: nat, k: nat :: j < k < |ops| && ApprovedAt(u, ops, j, id) && StartedAt(u, ops, k, id)
  {
    hide Run, Went;
    StatusIsEarned(u, ops, id);
  }

  // ---------------------------------------------------------------- budgets

  /** A positive amount in the engine's currency and scale. */
  predicate Chargeable(u: Unit, m: Money) {
    m.currency == u.currency && m.decimals == u.decimals && Scaled(m).Ok? && Scaled(m).value > 0
  }

  /** Spending and giving back go through exactly when the amount is chargeable and the envelope can bear it, and
      then move that many units between what is spent and what is left. */
  lemma SpendingExactly(s: State, id: string, m: Money)
    ensures Spend(s, id, m).Ok? <==> id in s.books && Chargeable(s.unit, m) && s.books[id].spent + Scaled(m).value <= s.books[id].allotted
    ensures ReverseSpend(s, id, m).Ok? <==> id in s.books && Chargeable(s.unit, m) && s.books[id].spent - Scaled(m).value >= 0
    ensures Spend(s, id, m).Ok? ==>
              Spend(s, id, m).value == s.(books := s.books[id := Book(s.books[id].allotted, s.books[id].spent + Scaled(m).value)])
    ensures ReverseSpend(s, id, m).Ok? ==>
              ReverseSpend(s, id, m).value == s.(books := s.books[id := Book(s.books[id].allotted, s.books[id].spent - Scaled(m).value)])
    ensures Spend(s, id, m).Ok? && s.books[id].spent >= 0 ==> ReverseSpend(Spend(s, id, m).value, id, m) == Ok(s)
  {
    hide ParseAmount;
    if Spend(s, id, m).Ok? {
      var t := Spend(s, id, m).value;
      assert t.books[id].(spent := t.books[id].spent - Scaled(m).value) == s.books[id];
      assert t.books[id := s.books[id]] == s.books && t.(books := s.books) == s;
    }
  }

  /** Why spending and giving back are refused: the envelope, the currency, the amount's text, its sign, its scale and
      then the budget decide, in this order. */
  lemma SpendingRefusals(s: State, id: string, m: Money)
    ensures var v := if Scaled(m).Ok? then Scaled(m).value else 0;
            var why := if id !in s.books then Some(EnvelopeNotFound)
                       else if m.currency != s.unit.currency then Some(WrongCurrency)
                       else if Scaled(m).Err? then Some(MoneyError(LedgerError.InvalidAmount))
                       else if v <= 0 then Some(VaultError.InvalidAmount)
                       else if m.decimals != s.unit.decimals then Some(MoneyError(CurrencyMismatch))
                       else None;
            && (why.Some? ==> Spend(s, id, m) == Err(why.value) && ReverseSpend(s, id, m) == Err(why.value))
            && (why == None && Spend(s, id, m).Err? ==> Spend(s, id, m) == Err(InsufficientBudget))
            && (why == None && ReverseSpend(s, id, m).Err? ==> ReverseSpend(s, id, m) == Err(VaultError.InvalidAmount))
  {
    hide ParseParts, Cut, Trim;
    ParseErrors(m.amount, m.decimals);
  }

  /** Why an allotment is refused. */
  lemma AllotmentRefusals(s: State, id: string, m: Money)
    ensures var v := if Scaled(m).Ok? then Scaled(m).value else 0;
            var why := if id !in s.books then Some(EnvelopeNotFound)
                       else if m.currency != s.unit.currency then Some(WrongCurrency)
                       else if Scaled(m).Err? then Some(MoneyError(LedgerError.InvalidAmount))
                       else if v <= 0 then Some(VaultError.InvalidAmount)
                       else if ParseAmount(m.amount, s.unit.decimals).Err? then Some(MoneyError(LedgerError.InvalidAmount))
                       else None;
            && (why.Some? ==> Apply(s, Allocate(id, m)) == Err(why.value) && Apply(s, Deallocate(id, m)) == Err(why.value))
            && (why == None && Apply(s, Deallocate(id, m)).Err? ==> Apply(s, Deallocate(id, m)) == Err(InsufficientBudget))
  {
    hide ParseParts, Cut, Trim;
    ParseErrors(m.amount, m.decimals);
    ParseErrors(m.amount, s.unit.decimals);
  }

  lemma ParseErrors(amount: string, decimals: int)
    ensures ParseAmount(amount, decimals).Err? ==> ParseAmount(amount, decimals) == Err(LedgerError.InvalidAmount)
  {
  }

  /** An execution goes through exactly for an executing intent that is not linked or whose amount the envelope can
      bear; declaring already makes sure of the currency, the scale and the budget of the moment. */
  lemma ExecutionExactly(s: State, id: string)
    ensures Apply(s, RecordExecution(id)).Ok? <==>
              && id in s.intents && s.intents[id].status == Executing
              && (s.intents[id].Linked() ==>
                    var m, e := s.intents[id].amount.value, s.intents[id].envelopeId;
                    e in s.books && Chargeable(s.unit, m) && s.books[e].spent + Scaled(m).value <= s.books[e].allotted)
  {
    hide Spend;
    if id in s.intents && s.intents[id].Linked() {
      SpendingExactly(s, s.intents[id].envelopeId, s.intents[id].amount.value);
    }
  }

  /** An intent can be declared exactly if its id is new and, when linked, its amount is in the engine's currency
      and scale and within what the envelope has left -- for a positive amount: if it could be spent right away. */
  lemma DeclareExactly(s: State, id: string, amount: Option<Money>, envelopeId: string)
    ensures Apply(s, Declare(id, amount, envelopeId)).Ok? <==>
              && id !in s.intents
              && (envelopeId != "" && amount.Some? ==>
                    var m := amount.value;
                    && envelopeId in s.books && m.currency == s.unit.currency && m.decimals == s.unit.decimals
                    && Scaled(m).Ok? && Scaled(m).value <= s.books[envelopeId].allotted - s.books[envelopeId].spent)
    ensures envelopeId != "" && amount.Some? && id !in s.intents && Scaled(amount.value).Ok? && Scaled(amount.value).value > 0 ==>
              (Apply(s, Declare(id, amount, envelopeId)).Ok? <==> Spend(s, envelopeId, amount.value).Ok?)
  {
    hide ParseAmount, Spend;
    if amount.Some? {
      SpendingExactly(s, envelopeId, amount.value);
    }
  }

  /** Allocating and deallocating go through exactly for a positive amount in the engine's currency whose digits also
      read at its scale, deallocating only down to what is spent; they move the allotment by that reading. */
  lemma AllotmentExactly(s: State, id: string, m: Money)
    ensures var readable := m.currency == s.unit.currency && Scaled(m).Ok? && Scaled(m).value > 0 && ParseAmount(m.amount, s.unit.decimals).Ok?;
            var v := if ParseAmount(m.amount, s.unit.decimals).Ok? then ParseAmount(m.amount, s.unit.decimals).value else 0;
            && (Apply(s, Allocate(id, m)).Ok? <==> id in s.books && readable)
            && (Apply(s, Deallocate(id, m)).Ok? <==> id in s.books && readable && s.books[id].allotted - v >= s.books[id].spent)
            && (Apply(s, Allocate(id, m)).Ok? ==>
                  Apply(s, Allocate(id, m)).value == s.(books := s.books[id := Book(s.books[id].allotted + v, s.books[id].spent)]))
            && (Apply(s, Deallocate(id, m)).Ok? ==>
                  Apply(s, Deallocate(id, m)).value == s.(books := s.books[id := Book(s.books[id].allotted - v, s.books[id].spent)]))
  {
    hide ParseAmount;
  }
}
