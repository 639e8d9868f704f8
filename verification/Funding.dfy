/** Dual-gate funding: the request state machine over whole runs, and the manager as an object that writes the
    ledger (packages/treasury/src/funding.ts). */
module Funding {
  import opened Wrappers
  import opened MoneyMath
  import opened Transfers
  import LedgerModel
  import Ledgers

  datatype FundingError =
    | RequestExists
    | RequestNotFound
    | InvalidTransition
    | NotGatekeeper
    | AlreadyApproved
    | DuplicateGatekeeper
    | RequesterCannotApprove
    | LedgerRefused(error: LedgerError)

  datatype Status = Pending | Gate1Approved | Approved | Rejected | Executed

  /** The gates hold who decided; a rejection takes the first free gate, or the second. */
  datatype Request = Request(
    id: string, description: string, amount: Money, requestedBy: string, status: Status,
    gate1: Option<string>, gate2: Option<string>)

  datatype Gatekeepers = Gatekeepers(first: string, second: string) {
    predicate Has(who: string) {
      who == first || who == second
    }
  }

  type Requests = map<string, Request>

  datatype Op =
    | Submit(id: string, description: string, amount: Money, requestedBy: string)
    | Approve(id: string, approvedBy: string)
    | Reject(id: string, rejectedBy: string)
    | Execute(id: string, refusal: Option<LedgerError>)

  // ---------------------------------------------------------------- steps

  function Find(rs: Requests, id: string): Result<Request, FundingError> {
    if id in rs then Ok(rs[id]) else Err(RequestNotFound)
  }

  function ApproveGate(g: Gatekeepers, r: Request, who: string): Result<Request, FundingError> {
    if !g.Has(who) then Err(NotGatekeeper)
    else if who == r.requestedBy then Err(RequesterCannotApprove)
    else if r.status != Pending && r.status != Gate1Approved then Err(InvalidTransition)
    else if r.status == Pending then Ok(r.(status := Gate1Approved, gate1 := Some(who)))
    else if r.gate1 == Some(who) then Err(AlreadyApproved)
    else Ok(r.(status := Approved, gate2 := Some(who)))
  }

  function RejectGate(g: Gatekeepers, r: Request, who: string): Result<Request, FundingError> {
    if !g.Has(who) then Err(NotGatekeeper)
    else if r.status == Rejected || r.status == Executed then Err(InvalidTransition)
    else if r.gate1.Some? then Ok(r.(status := Rejected, gate2 := Some(who)))
    else Ok(r.(status := Rejected, gate1 := Some(who)))
  }

  function ExecuteRequest(r: Request, refusal: Option<LedgerError>): Result<Request, FundingError> {
    if r.status != Approved then Err(InvalidTransition)
    else if refusal.Some? then Err(LedgerRefused(refusal.value))
    else Ok(r.(status := Executed))
  }

  /** One operation; for Execute, `refusal` is the ledger's objection, if any. */
  function Apply(g: Gatekeepers, rs: Requests, op: Op): Result<Requests, FundingError> {
    match op
    case Submit(id, description, amount, requestedBy) =>
      if id in rs then Err(RequestExists)
      else Ok(rs[id := Request(id, description, amount, requestedBy, Pending, None, None)])
    case Approve(id, who) =>
      var r :- Find(rs, id);
      var updated :- ApproveGate(g, r, who);
      Ok(rs[id := updated])
    case Reject(id, who) =>
      var r :- Find(rs, id);
      var updated :- RejectGate(g, r, who);
      Ok(rs[id := updated])
    case Execute(id, refusal) =>
      var r :- Find(rs, id);
      var updated :- ExecuteRequest(r, refusal);
      Ok(rs[id := updated])
  }

  function Run(g: Gatekeepers, ops: seq<Op>): Requests {
    if ops == [] then map[]
    else
      var before := Run(g, ops[..|ops| - 1]);
      match Apply(g, before, ops[|ops| - 1]) case Ok(after) => after case Err(_) => before
  }

  // ---------------------------------------------------------------- whole runs

  /** A gate was passed by a gatekeeper who is not the requester and whose approval was really made. */
  ghost predicate PassedBy(g: Gatekeepers, ops: seq<Op>, r: Request, gate: Option<string>) {
    gate.Some? && g.Has(gate.value) && gate.value != r.requestedBy && Approve(r.id, gate.value) in ops
  }

  ghost predicate RequestOk(g: Gatekeepers, ops: seq<Op>, r: Request) {
    match r.status
    case Pending => r.gate1 == None && r.gate2 == None
    case Gate1Approved => PassedBy(g, ops, r, r.gate1) && r.gate2 == None
    case Rejected => exists who :: g.Has(who) && Reject(r.id, who) in ops && (r.gate1 == Some(who) || r.gate2 == Some(who))
    case _ => PassedBy(g, ops, r, r.gate1) && PassedBy(g, ops, r, r.gate2) && r.gate1 != r.gate2
  }

  ghost predicate AllOk(g: Gatekeepers, ops: seq<Op>, rs: Requests) {
    forall id :: id in rs ==> rs[id].id == id && RequestOk(g, ops, rs[id])
  }

  lemma {:induction false} RunIsOk(g: Gatekeepers, ops: seq<Op>)
    ensures AllOk(g, ops, Run(g, ops))
  {
    if ops != [] {
      var n := |ops| - 1;
      RunIsOk(g, ops[..n]);
      assert ops == ops[..n] + [ops[n]];
      StepIsOk(g, ops[..n], Run(g, ops[..n]), ops[n]);
    }
  }

  lemma StepIsOk(g: Gatekeepers, ops: seq<Op>, rs: Requests, op: Op)
    requires AllOk(g, ops, rs)
    ensures AllOk(g, ops + [op], match Apply(g, rs, op) case Ok(after) => after case Err(_) => rs)
  {
    assert forall o :: o in ops ==> o in ops + [op];
    assert op in ops + [op];
  }

  /** In every run from an empty manager an approved or executed request carries the approvals of both
      gatekeepers, both really made, and neither gatekeeper is its requester. */
  lemma ApprovedByBoth(g: Gatekeepers, ops: seq<Op>, id: string)
    requires g.first != g.second && id in Run(g, ops) && Run(g, ops)[id].status in {Approved, Executed}
    ensures var r := Run(g, ops)[id];
            && {r.gate1, r.gate2} == {Some(g.first), Some(g.second)}
            && Approve(id, g.first) in ops && Approve(id, g.second) in ops
            && r.requestedBy != g.first && r.requestedBy != g.second
  {
    RunIsOk(g, ops);
    var r := Run(g, ops)[id];
    assert RequestOk(g, ops, r);
  }

  /** So a request that a gatekeeper raised never executes. */
  lemma GatekeeperRequestNeverExecutes(g: Gatekeepers, ops: seq<Op>, id: string)
    requires g.first != g.second && id in Run(g, ops) && g.Has(Run(g, ops)[id].requestedBy)
    ensures Run(g, ops)[id].status in {Pending, Gate1Approved, Rejected}
  {
    var r := Run(g, ops)[id];
    if r.status == Approved || r.status == Executed {
      ApprovedByBoth(g, ops, id);
    }
  }

  /** In every run a rejected request was rejected by a gatekeeper, whose name it carries. */
  lemma RejectedByGatekeeper(g: Gatekeepers, ops: seq<Op>, id: string) returns (who: string)
    requires id in Run(g, ops) && Run(g, ops)[id].status == Rejected
    ensures (who == g.first || who == g.second) && Reject(id, who) in ops
    ensures Run(g, ops)[id].gate1 == Some(who) || Run(g, ops)[id].gate2 == Some(who)
  {
    RunIsOk(g, ops);
    var r := Run(g, ops)[id];
    assert RequestOk(g, ops, r);
    who :| g.Has(who) && Reject(r.id, who) in ops && (r.gate1 == Some(who) || r.gate2 == Some(who));
  }

  /** Exactly when each operation goes through in a run. */
  lemma DecisionsExactly(g: Gatekeepers, ops: seq<Op>, id: string, who: string)
    requires g.first != g.second && id in Run(g, ops)
    ensures var rs, r := Run(g, ops), Run(g, ops)[id];
            && (Apply(g, rs, Approve(id, who)).Ok? <==>
                  who in {g.first, g.second} && who != r.requestedBy && r.status in {Pending, Gate1Approved} && r.gate1 != Some(who))
            && (Apply(g, rs, Reject(id, who)).Ok? <==> who in {g.first, g.second} && r.status !in {Rejected, Executed})
            && (Apply(g, rs, Execute(id, None)).Ok? <==> r.status == Approved)
  {
    RunIsOk(g, ops);
    assert RequestOk(g, ops, Run(g, ops)[id]);
  }

  /** Why a decision is refused. */
  lemma RefusalsExactly(g: Gatekeepers, rs: Requests, id: string, who: string)
    ensures id !in rs ==> Apply(g, rs, Approve(id, who)) == Apply(g, rs, Reject(id, who)) == Apply(g, rs, Execute(id, None)) == Err(RequestNotFound)
    ensures id in rs && who !in {g.first, g.second} ==> Apply(g, rs, Approve(id, who)) == Apply(g, rs, Reject(id, who)) == Err(NotGatekeeper)
    ensures id in rs && who in {g.first, g.second} && who == rs[id].requestedBy ==> Apply(g, rs, Approve(id, who)) == Err(RequesterCannotApprove)
    ensures id in rs && who in {g.first, g.second} && who != rs[id].requestedBy ==>
              && (rs[id].status !in {Pending, Gate1Approved} ==> Apply(g, rs, Approve(id, who)) == Err(InvalidTransition))
              && (rs[id].status == Gate1Approved && rs[id].gate1 == Some(who) ==> Apply(g, rs, Approve(id, who)) == Err(AlreadyApproved))
    ensures id in rs && who in {g.first, g.second} && rs[id].status in {Rejected, Executed} ==> Apply(g, rs, Reject(id, who)) == Err(InvalidTransition)
    ensures id in rs && rs[id].status != Approved ==> Apply(g, rs, Execute(id, None)) == Err(InvalidTransition)
  {
  }

  /** Two approvals by the two gatekeepers, in either order, approve a pending request that neither of them
      raised. */
  lemma TwoApprovalsApprove(g: Gatekeepers, ops: seq<Op>, id: string, who: string, other: string)
    requires {who, other} == {g.first, g.second} && who != other
    requires id in Run(g, ops) && Run(g, ops)[id].status == Pending && Run(g, ops)[id].requestedBy !in {g.first, g.second}
    ensures var once, twice := Run(g, ops + [Approve(id, who)]), Run(g, ops + [Approve(id, who), Approve(id, other)]);
            && id in once && once[id].status == Gate1Approved && id in twice && twice[id].status == Approved
            && twice[id].gate1 == Some(who) && twice[id].gate2 == Some(other)
  {
    hide Apply;
    RunMore(g, ops, Approve(id, who));
    assert ops + [Approve(id, who), Approve(id, other)] == ops + [Approve(id, who)] + [Approve(id, other)];
    RunMore(g, ops + [Approve(id, who)], Approve(id, other));
    RunIsOk(g, ops);
    ApprovalSteps(g, Run(g, ops), id, who, other);
  }

  lemma ApprovalSteps(g: Gatekeepers, rs: Requests, id: string, who: string, other: string)
    requires {who, other} == {g.first, g.second} && who != other
    requires id in rs && rs[id].status == Pending && rs[id].requestedBy !in {g.first, g.second}
    ensures Apply(g, rs, Approve(id, who)) == Ok(rs[id := rs[id].(status := Gate1Approved, gate1 := Some(who))])
    ensures var once := rs[id := rs[id].(status := Gate1Approved, gate1 := Some(who))];
            Apply(g, once, Approve(id, other)) == Ok(once[id := once[id].(status := Approved, gate2 := Some(other))])
  {
    assert who in {who, other} && other in {who, other};
    assert rs[id].requestedBy != who && rs[id].requestedBy != other;
  }

  lemma RunMore(g: Gatekeepers, ops: seq<Op>, op: Op)
    ensures Run(g, ops + [op]) == match Apply(g, Run(g, ops), op) case Ok(after) => after case Err(_) => Run(g, ops)
  {
    assert (ops + [op])[..|ops|] == ops;
  }

  /** Rejected and executed requests never change again, and no request is forgotten or handed to another
      requester. */
  lemma OnlyForward(g: Gatekeepers, rs: Requests, op: Op, id: string)
    requires id in rs && Apply(g, rs, op).Ok?
    ensures var after := Apply(g, rs, op).value;
            && id in after && after[id].requestedBy == rs[id].requestedBy && after[id].amount == rs[id].amount
            && (rs[id].status == Executed || rs[id].status == Rejected ==> after[id] == rs[id])
  {
  }

  // ---------------------------------------------------------------- the manager

  const TREASURY_ACCOUNT := "treasury:main"

  function TransferFor(r: Request): Transfer {
    Transfer("funding:" + r.id, "funding:request:" + r.id, TREASURY_ACCOUNT, r.amount)
  }

  /** What executing a request does to the ledger's totals: its own account is debited and the treasury's main
      account credited with the amount, in its currency; no other total changes. */
  lemma ExecutionMoves(r: Request, entries: seq<LedgerModel.Entry>, now: string, account: string, c: string)
    requires Scaled(r.amount).Ok?
    ensures var q := LedgerModel.Query(Some(account), Some(c), None);
            var after := entries + EntriesOf([TransferFor(r)], "funding:" + r.id, now);
            && LedgerModel.Sum(after, q, LedgerModel.Debit) - LedgerModel.Sum(entries, q, LedgerModel.Debit)
               == (if account == "funding:request:" + r.id && c == r.amount.currency then Scaled(r.amount).value else 0)
            && LedgerModel.Sum(after, q, LedgerModel.Credit) - LedgerModel.Sum(entries, q, LedgerModel.Credit)
               == (if account == "treasury:main" && c == r.amount.currency then Scaled(r.amount).value else 0)
  {
    hide LedgerModel.Sum, EntriesOf, Scaled;
    var q := LedgerModel.Query(Some(account), Some(c), None);
    TransfersMove([TransferFor(r)], entries, "funding:" + r.id, now, q, LedgerModel.Debit);
    TransfersMove([TransferFor(r)], entries, "funding:" + r.id, now, q, LedgerModel.Credit);
    assert [TransferFor(r)][..0] == [];
    assert Moved([], q, LedgerModel.Debit) == 0 && Moved([], q, LedgerModel.Credit) == 0;
  }

  ghost predicate Follows(g: Gatekeepers, r: Result<Request, FundingError>, op: Op, before: Requests, after: Requests) {
    match Apply(g, before, op)
    case Ok(rs) => op.id in rs && r == Ok(rs[op.id]) && after == rs
    case Err(e) => r == Err(e) && after == before
  }

  class FundingGateManager {
    const gatekeepers: Gatekeepers
    var requests: Requests

    constructor (gatekeepers: Gatekeepers)
      requires gatekeepers.first != gatekeepers.second
      ensures this.gatekeepers == gatekeepers && requests == map[]
    {
      this.gatekeepers := gatekeepers;
      requests := map[];
    }

    /** The constructor the caller sees. */
    static method Create(gatekeepers: Gatekeepers) returns (r: Result<FundingGateManager, FundingError>)
      ensures r == Err(DuplicateGatekeeper) <==> gatekeepers.first == gatekeepers.second
      ensures gatekeepers.first != gatekeepers.second ==> r.Ok? && fresh(r.value) && r.value.gatekeepers == gatekeepers && r.value.requests == map[]
    {
      if gatekeepers.first == gatekeepers.second { return Err(DuplicateGatekeeper); }
      var manager := new FundingGateManager(gatekeepers);
      r := Ok(manager);
    }

    method SubmitRequest(id: string, description: string, amount: Money, requestedBy: string) returns (r: Result<Request, FundingError>)
      modifies this
      ensures Follows(gatekeepers, r, Submit(id, description, amount, requestedBy), old(requests), requests)
    {
      if id in requests { return Err(RequestExists); }
      var request := Request(id, description, amount, requestedBy, Pending, None, None);
      requests := requests[id := request];
      r := Ok(request);
    }

    method Approve(id: string, approvedBy: string) returns (r: Result<Request, FundingError>)
      modifies this
      ensures Follows(gatekeepers, r, Op.Approve(id, approvedBy), old(requests), requests)
    {
      if id !in requests { return Err(RequestNotFound); }
      var request := requests[id];
      if approvedBy != gatekeepers.first && approvedBy != gatekeepers.second { return Err(NotGatekeeper); }
      if approvedBy == request.requestedBy { return Err(RequesterCannotApprove); }
      if request.status != Pending && request.status != Gate1Approved { return Err(InvalidTransition); }
      var updated;
      if request.status == Pending {
        updated := request.(status := Gate1Approved, gate1 := Some(approvedBy));
      } else {
        if request.gate1 == Some(approvedBy) { return Err(AlreadyApproved); }
        updated := request.(status := Approved, gate2 := Some(approvedBy));
      }
      requests := requests[id := updated];
      r := Ok(updated);
    }

    method Reject(id: string, rejectedBy: string) returns (r: Result<Request, FundingError>)
      modifies this
      ensures Follows(gatekeepers, r, Op.Reject(id, rejectedBy), old(requests), requests)
    {
      if id !in requests { return Err(RequestNotFound); }
      var request := requests[id];
      if rejectedBy != gatekeepers.first && rejectedBy != gatekeepers.second { return Err(NotGatekeeper); }
      if request.status == Rejected || request.status == Executed { return Err(InvalidTransition); }
      var updated := if request.gate1.Some? then request.(status := Rejected, gate2 := Some(rejectedBy))
                     else request.(status := Rejected, gate1 := Some(rejectedBy));
      requests := requests[id := updated];
      r := Ok(updated);
    }

    /** executeRequest: one balanced pair of entries, or no entry and no change of the request. */
    method Execute(id: string, ledger: Ledgers.Ledger, now: string) returns (r: Result<Request, FundingError>, ghost refusal: Option<LedgerError>)
      requires ledger.Valid()
      modifies this, ledger
      ensures ledger.Valid()
      ensures Follows(gatekeepers, r, Op.Execute(id, refusal), old(requests), requests)
      ensures r.Ok? <==> && id in old(requests) && old(requests)[id].status == Approved
                         && ValidateMoney(old(requests)[id].amount).Ok? && Scaled(old(requests)[id].amount).value > 0
                         && !IdsTaken(old(ledger.entries), [TransferFor(old(requests)[id])])
      ensures ledger.entries == old(ledger.entries)
                                   + if r.Ok? then EntriesOf([TransferFor(old(requests)[id])], "funding:" + old(requests)[id].id, now) else []
    {
      hide LedgerModel.WellFormed, LedgerModel.AppendError, Scaled, ValidateMoney, IdsTaken, EntriesOf;
      refusal := None;
      if id !in requests { return Err(RequestNotFound), None; }
      var request := requests[id];
      if request.status != Approved { return Err(InvalidTransition), None; }
      var transfer := TransferFor(request);
      EnsureAccount(ledger, LedgerModel.Account(TREASURY_ACCOUNT, LedgerModel.Asset, "Treasury Main Account", now));
      EnsureAccount(ledger, LedgerModel.Account("funding:request:" + request.id, LedgerModel.Expense, "Funding: " + request.description, now));
      TransferAccepted(ledger.Contents(), transfer, "funding:" + request.id, now);
      var receipt := ledger.Append(EntriesOf([transfer], "funding:" + request.id, now), Some("Funding: " + request.description));
      if receipt.Err? { return Err(LedgerRefused(receipt.error)), Some(receipt.error); }
      requests := requests[id := request.(status := Executed)];
      r := Ok(requests[id]);
    }
  }
}
