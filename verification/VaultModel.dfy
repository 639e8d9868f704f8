/** The vault as a state machine on integers: envelopes as books of allotted and spent units, intents with
    their lifecycle (packages/vault/src/budget.ts, packages/vault/src/intent-manager.ts). */
module VaultModel {
  import opened Wrappers
  import opened Decimal
  import opened MoneyMath

  datatype VaultError =
    | EnvelopeExists
    | EnvelopeNotFound
    | InsufficientBudget
    | InvalidAmount
    | WrongCurrency
    | InvalidEnvelopeState
    | IntentNotFound
    | InvalidTransition
    | AlreadyExists
    | BudgetExceeded
    | MoneyError(error: LedgerError)

  datatype Status = Declared | Approved | Rejected | Executing | Executed | Verified | Failed

  /** An intent; an empty envelope id links to no envelope. */
  datatype Intent = Intent(id: string, status: Status, amount: Option<Money>, envelopeId: string) {
    predicate Linked() {
      envelopeId != "" && amount.Some?
    }

    /** Its amount has been debited from its envelope. */
    predicate Charged() {
      Linked() && (status == Executed || status == Verified)
    }
  }

  datatype Book = Book(allotted: int, spent: int)

  /** The currency and scale all envelopes of an engine share. */
  datatype Unit = Unit(currency: string, decimals: nat)

  datatype State = State(unit: Unit, books: map<string, Book>, intents: map<string, Intent>)

  datatype Op =
    | CreateEnvelope(id: string)
    | Allocate(id: string, amount: Money)
    | Deallocate(id: string, amount: Money)
    | Declare(id: string, requested: Option<Money>, envelopeId: string)
    | Approve(id: string)
    | Reject(id: string)
    | MarkExecuting(id: string)
    | RecordExecution(id: string)
    | Verify(id: string)
    | RecordFailure(id: string)

  // ---------------------------------------------------------------- amounts

  /** assertCurrency and assertPositive. */
  function Positive(u: Unit, m: Money): Result<int, VaultError> {
    if m.currency != u.currency then Err(WrongCurrency)
    else if Scaled(m).Err? then Err(MoneyError(Scaled(m).error))
    else if Scaled(m).value <= 0 then Err(VaultError.InvalidAmount)
    else Ok(Scaled(m).value)
  }

  /** What allocate and deallocate add: the amount's digits read at the engine's scale, not at its own. */
  function Allocation(u: Unit, m: Money): Result<int, VaultError> {
    var _ :- Positive(u, m);
    match ParseAmount(m.amount, u.decimals) case Err(e) => Err(MoneyError(e)) case Ok(v) => Ok(v)
  }

  /** What spend and reverseSpend compare: only amounts at the engine's own scale. */
  function Charge(u: Unit, m: Money): Result<int, VaultError> {
    var v :- Positive(u, m);
    if m.decimals != u.decimals then Err(MoneyError(CurrencyMismatch)) else Ok(v)
  }

  /** A positive amount stays positive when its digits are read at another scale. */
  lemma AllocationPositive(u: Unit, m: Money)
    requires Allocation(u, m).Ok?
    ensures Allocation(u, m).value > 0
  {
    hide ParseAmount, Pow10;
    var v, w := Scaled(m).value, ParseAmount(m.amount, u.decimals).value;
    if m.decimals <= u.decimals {
      ParseRescale(m.amount, m.decimals, u.decimals);
      SignKept(v, Pow10(u.decimals - m.decimals));
    } else {
      ParseRescale(m.amount, u.decimals, m.decimals);
      SignKept(w, Pow10(m.decimals - u.decimals));
    }
  }

  lemma SignKept(v: int, p: int)
    requires p > 0
    ensures v * p > 0 <==> v > 0
  {
  }

  // ---------------------------------------------------------------- operations

  function Lookup(s: State, id: string): Result<Book, VaultError> {
    if id in s.books then Ok(s.books[id]) else Err(EnvelopeNotFound)
  }

  function AllocateTo(s: State, id: string, m: Money): Result<State, VaultError> {
    var book :- Lookup(s, id);
    var v :- Allocation(s.unit, m);
    Ok(s.(books := s.books[id := book.(allotted := book.allotted + v)]))
  }

  function DeallocateFrom(s: State, id: string, m: Money): Result<State, VaultError> {
    var book :- Lookup(s, id);
    var v :- Allocation(s.unit, m);
    if book.allotted - v < book.spent then Err(InsufficientBudget)
    else Ok(s.(books := s.books[id := book.(allotted := book.allotted - v)]))
  }

  function Spend(s: State, id: string, m: Money): Result<State, VaultError> {
    var book :- Lookup(s, id);
    var v :- Charge(s.unit, m);
    if v > book.allotted - book.spent then Err(InsufficientBudget)
    else Ok(s.(books := s.books[id := book.(spent := book.spent + v)]))
  }

  function ReverseSpend(s: State, id: string, m: Money): Result<State, VaultError> {
    var book :- Lookup(s, id);
    var v :- Charge(s.unit, m);
    if v > book.spent then Err(VaultError.InvalidAmount)
    else Ok(s.(books := s.books[id := book.(spent := book.spent - v)]))
  }

  /** declare's check against the envelope: same currency and scale, parseable, and available now. */
  function Affordable(s: State, envelopeId: string, m: Money): Result<(), VaultError> {
    var book :- Lookup(s, envelopeId);
    if m.currency != s.unit.currency || m.decimals != s.unit.decimals then Err(MoneyError(CurrencyMismatch))
    else if Scaled(m).Err? then Err(MoneyError(Scaled(m).error))
    else if Scaled(m).value > book.allotted - book.spent then Err(BudgetExceeded)
    else Ok(())
  }

  predicate Allowed(from: Status, to: Status) {
    match from
    case Declared => to == Approved || to == Rejected
    case Approved => to == Executing || to == Rejected
    case Executing => to == Executed || to == Failed
    case Executed => to == Verified || to == Failed
    case _ => false
  }

  /** requireIntent and assertTransition. */
  function Transitioning(s: State, id: string, to: Status): Result<Intent, VaultError> {
    if id !in s.intents then Err(IntentNotFound)
    else if !Allowed(s.intents[id].status, to) then Err(InvalidTransition)
    else Ok(s.intents[id])
  }

  function Moved(s: State, i: Intent, to: Status): State {
    s.(intents := s.intents[i.id := i.(status := to)])
  }

  function DeclareIntent(s: State, id: string, amount: Option<Money>, envelopeId: string): Result<State, VaultError> {
    var intent := Intent(id, Declared, amount, envelopeId);
    if id in s.intents then Err(AlreadyExists)
    else
      var _ :- if intent.Linked() then Affordable(s, envelopeId, amount.value) else Ok(());
      Ok(s.(intents := s.intents[id := intent]))
  }

  function MoveTo(s: State, id: string, to: Status): Result<State, VaultError> {
    var i :- Transitioning(s, id, to);
    Ok(Moved(s, i, to))
  }

  function Execute(s: State, id: string): Result<State, VaultError> {
    var i :- Transitioning(s, id, Executed);
    var charged :- if i.Linked() then Spend(s, i.envelopeId, i.amount.value) else Ok(s);
    Ok(Moved(charged, i, Executed))
  }

  function Fail(s: State, id: string): Result<State, VaultError> {
    var i :- Transitioning(s, id, Failed);
    var refunded :- if i.status == Executed && i.Linked() then ReverseSpend(s, i.envelopeId, i.amount.value) else Ok(s);
    Ok(Moved(refunded, i, Failed))
  }

  function Apply(s: State, op: Op): Result<State, VaultError> {
    match op
    case CreateEnvelope(id) => if id in s.books then Err(EnvelopeExists) else Ok(s.(books := s.books[id := Book(0, 0)]))
    case Allocate(id, m) => AllocateTo(s, id, m)
    case Deallocate(id, m) => DeallocateFrom(s, id, m)
    case Declare(id, amount, envelopeId) => DeclareIntent(s, id, amount, envelopeId)
    case Approve(id) => MoveTo(s, id, Approved)
    case Reject(id) => MoveTo(s, id, Rejected)
    case MarkExecuting(id) => MoveTo(s, id, Executing)
    case RecordExecution(id) => Execute(s, id)
    case Verify(id) => MoveTo(s, id, Verified)
    case RecordFailure(id) => Fail(s, id)
  }

  function Run(s: State, ops: seq<Op>): State {
    if ops == [] then s
    else
      var before := Run(s, ops[..|ops| - 1]);
      match Apply(before, ops[|ops| - 1]) case Ok(t) => t case Err(_) => before
  }

  // ---------------------------------------------------------------- totals over a map

  ghost function Total(m: map<string, int>): int {
    if m == map[] then 0
    else
      var k :| k in m;
      m[k] + Total(m - {k})
  }

  /** The total does not depend on which key is taken out first. */
  lemma {:induction false} TotalWithout(m: map<string, int>, k: string)
    requires k in m
    ensures Total(m) == m[k] + Total(m - {k})
    decreases |m|
  {
    var j :| j in m && Total(m) == m[j] + Total(m - {j});
    if j != k {
      TotalWithout(m - {j}, k);
      TotalWithout(m - {k}, j);
      assert m - {j} - {k} == m - {k} - {j};
    }
  }

  lemma TotalUpdate(m: map<string, int>, k: string, v: int)
    ensures Total(m[k := v]) == Total(m) - (if k in m then m[k] else 0) + v
  {
    TotalWithout(m[k := v], k);
    if k in m {
      TotalWithout(m, k);
      assert m[k := v] - {k} == m - {k};
    } else {
      assert m[k := v] - {k} == m;
    }
  }

  lemma {:induction false} TotalCovers(m: map<string, int>, k: string)
    requires k in m && forall j :: j in m ==> m[j] >= 0
    ensures 0 <= m[k] <= Total(m)
    decreases |m|
  {
    TotalWithout(m, k);
    TotalNonNegative(m - {k});
  }

  lemma {:induction false} TotalNonNegative(m: map<string, int>)
    requires forall j :: j in m ==> m[j] >= 0
    ensures Total(m) >= 0
    decreases |m|
  {
    if m != map[] {
      var k :| k in m;
      TotalWithout(m, k);
      TotalNonNegative(m - {k});
    }
  }

  // ---------------------------------------------------------------- the invariant

  /** What an intent contributes to the spending of an envelope. */
  function Contribution(i: Intent, envelopeId: string): int {
    if i.Charged() && i.envelopeId == envelopeId && Scaled(i.amount.value).Ok? then Scaled(i.amount.value).value else 0
  }

  function Contributions(intents: map<string, Intent>, envelopeId: string): map<string, int> {
    map id | id in intents :: Contribution(intents[id], envelopeId)
  }

  /** The sum of the amounts of an envelope's executed and verified intents. */
  ghost function ChargedTotal(intents: map<string, Intent>, envelopeId: string): int {
    Total(Contributions(intents, envelopeId))
  }

  ghost predicate BookOk(s: State, id: string)
    requires id in s.books
  {
    && 0 <= s.books[id].spent <= s.books[id].allotted
    && s.books[id].spent == ChargedTotal(s.intents, id)
  }

  ghost predicate IntentOk(s: State, id: string)
    requires id in s.intents
  {
    var i := s.intents[id];
    && i.id == id
    && (i.Charged() ==> i.envelopeId in s.books && Charge(s.unit, i.amount.value).Ok?)
  }

  ghost predicate Sound(s: State) {
    && (forall id :: id in s.books ==> BookOk(s, id))
    && (forall id :: id in s.intents ==> IntentOk(s, id))
    && (forall id :: id !in s.books ==> ChargedTotal(s.intents, id) == 0)
  }

  lemma ChargedUpdate(intents: map<string, Intent>, i: Intent, envelopeId: string)
    ensures ChargedTotal(intents[i.id := i], envelopeId)
         == ChargedTotal(intents, envelopeId) - (if i.id in intents then Contribution(intents[i.id], envelopeId) else 0) + Contribution(i, envelopeId)
  {
    hide Contribution;
    var before := Contributions(intents, envelopeId);
    TotalUpdate(before, i.id, Contribution(i, envelopeId));
    assert Contributions(intents[i.id := i], envelopeId) == before[i.id := Contribution(i, envelopeId)];
  }

  /** Changing one intent and perhaps the book of its envelope by the same amount keeps the vault sound. */
  lemma MoveKeepsSound(s: State, t: State, i: Intent, delta: int)
    requires Sound(s) && t.unit == s.unit && t.intents == s.intents[i.id := i] && t.books.Keys == s.books.Keys
    requires IntentOk(t, i.id)
    requires forall e :: e in s.books && e != i.envelopeId ==> t.books[e] == s.books[e]
    requires i.id in s.intents ==> s.intents[i.id].envelopeId == i.envelopeId
    requires Contribution(i, i.envelopeId) - (if i.id in s.intents then Contribution(s.intents[i.id], i.envelopeId) else 0) == delta
    requires if i.envelopeId in s.books then t.books[i.envelopeId] == s.books[i.envelopeId].(spent := s.books[i.envelopeId].spent + delta)
             else delta == 0
    requires i.envelopeId in t.books ==> 0 <= t.books[i.envelopeId].spent <= t.books[i.envelopeId].allotted
    ensures Sound(t)
  {
    hide Charge, ChargedTotal;
    forall e
      ensures ChargedTotal(t.intents, e) == ChargedTotal(s.intents, e) + if e == i.envelopeId then delta else 0
    {
      ChargedUpdate(s.intents, i, e);
      OtherEnvelope(i, e);
      if i.id in s.intents {
        OtherEnvelope(s.intents[i.id], e);
      }
    }
    forall id | id in t.books
      ensures BookOk(t, id)
    {
      assert BookOk(s, id);
    }
    forall id | id in t.intents
      ensures IntentOk(t, id)
    {
      if id != i.id {
        assert IntentOk(s, id);
      }
    }
  }

  lemma OtherEnvelope(i: Intent, envelopeId: string)
    ensures i.envelopeId != envelopeId ==> Contribution(i, envelopeId) == 0
  {
  }

  /** Moving an intent between two statuses that are both charged or both not. */
  lemma QuietMoveSound(s: State, id: string, to: Status)
    requires Sound(s) && id in s.intents
    requires s.intents[id].Charged() == s.intents[id].(status := to).Charged()
    ensures Sound(Moved(s, s.intents[id], to))
  {
    hide Charge, ChargedTotal, Scaled, BookOk;
    var i := s.intents[id];
    assert IntentOk(s, id);
    if i.envelopeId in s.books {
      BookBounds(s, i.envelopeId);
    }
    MoveKeepsSound(s, Moved(s, i, to), i.(status := to), 0);
  }

  lemma BookBounds(s: State, id: string)
    requires Sound(s) && id in s.books
    ensures 0 <= s.books[id].spent <= s.books[id].allotted && s.books[id].spent == ChargedTotal(s.intents, id)
  {
    assert BookOk(s, id);
  }

  lemma ExecuteSound(s: State, id: string)
    requires Sound(s) && Execute(s, id).Ok?
    ensures Sound(Execute(s, id).value)
  {
    hide ChargedTotal, Scaled, BookOk, Sound;
    var i := s.intents[id];
    assert IntentOk(s, id) by { IntentIsOk(s, id); }
    if i.Linked() {
      BookBounds(s, i.envelopeId);
      MoveKeepsSound(s, Execute(s, id).value, i.(status := Executed), Charge(s.unit, i.amount.value).value);
    } else {
      QuietMoveSound(s, id, Executed);
    }
  }

  lemma IntentIsOk(s: State, id: string)
    requires Sound(s) && id in s.intents
    ensures IntentOk(s, id)
  {
  }

  /** A failure recorded on an executing or executed intent is never refused: what was charged can always
      be given back. */
  lemma RecordFailureNeverRefused(s: State, id: string)
    requires Sound(s)
    ensures Apply(s, RecordFailure(id)).Ok? <==> id in s.intents && (s.intents[id].status == Executing || s.intents[id].status == Executed)
  {
    hide Scaled, Sound;
    if id in s.intents {
      var i := s.intents[id];
      IntentIsOk(s, id);
      if i.Charged() {
        BookBounds(s, i.envelopeId);
        ContributionCovered(s, id);
      }
    }
  }

  lemma ContributionCovered(s: State, id: string)
    requires Sound(s) && id in s.intents && s.intents[id].Charged()
    ensures Contribution(s.intents[id], s.intents[id].envelopeId) <= ChargedTotal(s.intents, s.intents[id].envelopeId)
  {
    hide Scaled;
    var e := s.intents[id].envelopeId;
    var m := Contributions(s.intents, e);
    forall j | j in m
      ensures m[j] >= 0
    {
      assert IntentOk(s, j);
    }
    TotalCovers(m, id);
  }

  lemma FailSound(s: State, id: string)
    requires Sound(s) && Fail(s, id).Ok?
    ensures Sound(Fail(s, id).value)
  {
    hide ChargedTotal, Scaled, BookOk, Sound;
    var i := s.intents[id];
    IntentIsOk(s, id);
    if i.status == Executed && i.Linked() {
      BookBounds(s, i.envelopeId);
      MoveKeepsSound(s, Fail(s, id).value, i.(status := Failed), -Charge(s.unit, i.amount.value).value);
    } else {
      QuietMoveSound(s, id, Failed);
    }
  }

  lemma DeclareSound(s: State, id: string, amount: Option<Money>, envelopeId: string)
    requires Sound(s) && DeclareIntent(s, id, amount, envelopeId).Ok?
    ensures Sound(DeclareIntent(s, id, amount, envelopeId).value)
  {
    hide ChargedTotal, Scaled, BookOk, Affordable;
    if envelopeId in s.books {
      BookBounds(s, envelopeId);
    }
    MoveKeepsSound(s, DeclareIntent(s, id, amount, envelopeId).value, Intent(id, Declared, amount, envelopeId), 0);
  }

  /** Changing one book's allotment, or opening a book nothing was charged to. */
  lemma BookSound(s: State, id: string, book: Book)
    requires Sound(s) && 0 <= book.spent <= book.allotted
    requires book.spent == if id in s.books then s.books[id].spent else 0
    ensures Sound(s.(books := s.books[id := book]))
  {
    hide ChargedTotal, Charge;
    var t := s.(books := s.books[id := book]);
    forall e | e in t.books
      ensures BookOk(t, e)
    {
      assert e in s.books ==> BookOk(s, e);
    }
    forall j | j in t.intents
      ensures IntentOk(t, j)
    {
      assert IntentOk(s, j);
    }
  }

  /** Every operation keeps 0 <= spent <= allotted, and spent equal to the executed and verified intents. */
  lemma ApplyKeepsSound(s: State, op: Op)
    requires Sound(s) && Apply(s, op).Ok?
    ensures Sound(Apply(s, op).value)
  {
    hide Sound, Allocation, DeclareIntent, Execute, Fail, Charge, Scaled;
    match op {
      case CreateEnvelope(id) => BookSound(s, id, Book(0, 0));
      case Allocate(id, m) =>
        BookBounds(s, id);
        AllocationPositive(s.unit, m);
        BookSound(s, id, Apply(s, op).value.books[id]);
      case Deallocate(id, m) =>
        BookBounds(s, id);
        AllocationPositive(s.unit, m);
        BookSound(s, id, Apply(s, op).value.books[id]);
      case Declare(id, amount, envelopeId) => DeclareSound(s, id, amount, envelopeId);
      case Approve(id) => MoveSound(s, id, Approved);
      case Reject(id) => MoveSound(s, id, Rejected);
      case MarkExecuting(id) => MoveSound(s, id, Executing);
      case RecordExecution(id) => ExecuteSound(s, id);
      case Verify(id) => MoveSound(s, id, Verified);
      case RecordFailure(id) => FailSound(s, id);
    }
  }

  lemma MoveSound(s: State, id: string, to: Status)
    requires Sound(s) && MoveTo(s, id, to).Ok? && to != Executed && to != Failed
    ensures Sound(MoveTo(s, id, to).value)
  {
    hide Sound;
    IntentIsOk(s, id);
    QuietMoveSound(s, id, to);
  }

  /** In every run from an empty vault. */
  lemma {:induction false} RunIsSound(u: Unit, ops: seq<Op>)
    ensures Sound(Run(State(u, map[], map[]), ops))
  {
    hide Sound, Apply;
    if ops == [] {
      EmptyIsSound(u);
    } else {
      RunIsSound(u, ops[..|ops| - 1]);
      var before := Run(State(u, map[], map[]), ops[..|ops| - 1]);
      if Apply(before, ops[|ops| - 1]).Ok? {
        ApplyKeepsSound(before, ops[|ops| - 1]);
      }
    }
  }

  lemma EmptyIsSound(u: Unit)
    ensures Sound(State(u, map[], map[]))
  {
    assert forall id :: Contributions(map[], id) == map[];
  }
}
