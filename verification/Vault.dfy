/** The budget engine and the intent manager as objects: amounts are decimal strings, updated envelope by
    envelope, and every method is proved to follow the integer state machine (packages/vault/src/budget.ts,
    packages/vault/src/intent-manager.ts). */
module Vaults {
  import opened Wrappers
  import opened Decimal
  import opened MoneyMath
  import opened VaultModel

  datatype Envelope = Envelope(id: string, allotted: string, spent: string, available: string)

  predicate Readable(u: Unit, s: string) {
    ParseAmount(s, u.decimals).Ok?
  }

  function Reading(u: Unit, s: string): int {
    if Readable(u, s) then ParseAmount(s, u.decimals).value else 0
  }

  /** All three texts parse at the engine's scale, and available is the difference of the other two. */
  predicate EnvelopeOk(u: Unit, e: Envelope) {
    && Readable(u, e.allotted) && Readable(u, e.spent) && Readable(u, e.available)
    && Reading(u, e.available) == Reading(u, e.allotted) - Reading(u, e.spent)
  }

  function BookOf(u: Unit, e: Envelope): Book {
    Book(Reading(u, e.allotted), Reading(u, e.spent))
  }

  function BooksOf(u: Unit, envelopes: map<string, Envelope>): map<string, Book> {
    map id | id in envelopes :: BookOf(u, envelopes[id])
  }

  ghost predicate Answers(r: Result<(), VaultError>, t: Result<State, VaultError>, before: State, after: State) {
    match t
    case Ok(s) => r.Ok? && after == s
    case Err(e) => r == Err(e) && after == before
  }

  lemma ZeroReads(u: Unit)
    ensures Readable(u, "0") && Reading(u, "0") == 0
  {
    var p := Parts(false, "0", false, "");
    ParseText(p, u.decimals);
    assert "0" + ("" + Zeros(u.decimals)) == Zeros(u.decimals + 1);
    ValueZeros(u.decimals + 1);
  }

  /** add and subtract on strings are exact on what they denote. */
  lemma AddReads(u: Unit, a: string, b: string)
    requires Readable(u, a) && Readable(u, b)
    ensures var r := AddMoney(Money(a, u.currency, u.decimals), Money(b, u.currency, u.decimals));
            r.Ok? && Readable(u, r.value.amount) && Reading(u, r.value.amount) == Reading(u, a) + Reading(u, b)
  {
    hide ParseAmount, FormatAmount;
    AddExact(Money(a, u.currency, u.decimals), Money(b, u.currency, u.decimals));
    SameScale(u, Money(a, u.currency, u.decimals), Money(b, u.currency, u.decimals));
  }

  lemma SubtractReads(u: Unit, a: string, b: string)
    requires Readable(u, a) && Readable(u, b)
    ensures var r := SubtractMoney(Money(a, u.currency, u.decimals), Money(b, u.currency, u.decimals));
            r.Ok? && Readable(u, r.value.amount) && Reading(u, r.value.amount) == Reading(u, a) - Reading(u, b)
  {
    hide ParseAmount, FormatAmount;
    SubtractExact(Money(a, u.currency, u.decimals), Money(b, u.currency, u.decimals));
    SameScale(u, Money(a, u.currency, u.decimals), Money(b, u.currency, u.decimals));
  }

  lemma SameScale(u: Unit, a: Money, b: Money)
    requires Addable(a, b)
    ensures AddMoney(a, b).Ok? ==> AddMoney(a, b).value.decimals == a.decimals
    ensures SubtractMoney(a, b).Ok? ==> SubtractMoney(a, b).value.decimals == a.decimals
  {
  }

  class BudgetEngine {
    const unit: Unit
    var envelopes: map<string, Envelope>

    ghost predicate Valid()
      reads this
    {
      forall id :: id in envelopes ==> EnvelopeOk(unit, envelopes[id])
    }

    /** The books, as seen together with the given intents. */
    ghost function AsState(intents: map<string, Intent>): State
      reads this
    {
      State(unit, BooksOf(unit, envelopes), intents)
    }

    constructor (unit: Unit)
      ensures this.unit == unit && Valid() && envelopes == map[]
    {
      this.unit := unit;
      envelopes := map[];
    }

    method CreateEnvelope(id: string, ghost intents: map<string, Intent>) returns (r: Result<(), VaultError>)
      requires Valid()
      modifies this
      ensures Valid()
      ensures Answers(r, Apply(old(AsState(intents)), VaultModel.CreateEnvelope(id)), old(AsState(intents)), AsState(intents))
    {
      hide Readable, Reading;
      if id in envelopes { return Err(EnvelopeExists); }
      ZeroReads(unit);
      SetEnvelope(id, Envelope(id, "0", "0", "0"));
      r := Ok(());
    }

    /** envelopes.set. */
    method SetEnvelope(id: string, e: Envelope)
      requires Valid() && EnvelopeOk(unit, e)
      modifies this
      ensures Valid() && envelopes == old(envelopes)[id := e]
      ensures BooksOf(unit, envelopes) == BooksOf(unit, old(envelopes))[id := BookOf(unit, e)]
    {
      hide EnvelopeOk, BookOf;
      envelopes := envelopes[id := e];
    }

    /** add and subtract: they throw on text that does not parse, which the callers rule out. */
    method Add(a: string, b: string) returns (r: string)
      requires Readable(unit, a) && Readable(unit, b)
      ensures Readable(unit, r) && Reading(unit, r) == Reading(unit, a) + Reading(unit, b)
    {
      AddReads(unit, a, b);
      r := AddMoney(Money(a, unit.currency, unit.decimals), Money(b, unit.currency, unit.decimals)).value.amount;
    }

    method Subtract(a: string, b: string) returns (r: string)
      requires Readable(unit, a) && Readable(unit, b)
      ensures Readable(unit, r) && Reading(unit, r) == Reading(unit, a) - Reading(unit, b)
    {
      SubtractReads(unit, a, b);
      r := SubtractMoney(Money(a, unit.currency, unit.decimals), Money(b, unit.currency, unit.decimals)).value.amount;
    }

    /** assertCurrency, then assertPositive. */
    method CheckAmount(m: Money) returns (r: Result<(), VaultError>)
      ensures r.Ok? <==> Positive(unit, m).Ok?
      ensures r.Err? ==> r.error == Positive(unit, m).error
    {
      hide Scaled;
      if m.currency != unit.currency { return Err(WrongCurrency); }
      var units := Scaled(m);
      if units.Err? { return Err(MoneyError(units.error)); }
      if !(units.value > 0) { return Err(VaultError.InvalidAmount); }
      r := Ok(());
    }

    method Allocate(id: string, m: Money, ghost intents: map<string, Intent>) returns (r: Result<(), VaultError>)
      requires Valid()
      modifies this
      ensures Valid()
      ensures Answers(r, AllocateTo(old(AsState(intents)), id, m), old(AsState(intents)), AsState(intents))
    {
      hide Positive, ParseAmount;
      if id !in envelopes { return Err(EnvelopeNotFound); }
      var e := envelopes[id];
      var checked := CheckAmount(m);
      if checked.Err? { return checked; }
      if !Readable(unit, m.amount) { return Err(MoneyError(ParseAmount(m.amount, unit.decimals).error)); }
      var newAllotted := Add(e.allotted, m.amount);
      var newAvailable := Subtract(newAllotted, e.spent);
      SetEnvelope(id, e.(allotted := newAllotted, available := newAvailable));
      r := Ok(());
    }

    method Deallocate(id: string, m: Money, ghost intents: map<string, Intent>) returns (r: Result<(), VaultError>)
      requires Valid()
      modifies this
      ensures Valid()
      ensures Answers(r, DeallocateFrom(old(AsState(intents)), id, m), old(AsState(intents)), AsState(intents))
    {
      hide Positive, ParseAmount;
      if id !in envelopes { return Err(EnvelopeNotFound); }
      var e := envelopes[id];
      var checked := CheckAmount(m);
      if checked.Err? { return checked; }
      if !Readable(unit, m.amount) { return Err(MoneyError(ParseAmount(m.amount, unit.decimals).error)); }
      var newAllotted := Subtract(e.allotted, m.amount);
      var newAvailable := Subtract(newAllotted, e.spent);
      if Scaled(Money(newAvailable, unit.currency, unit.decimals)).value < 0 {
        return Err(InsufficientBudget);
      }
      SetEnvelope(id, e.(allotted := newAllotted, available := newAvailable));
      r := Ok(());
    }

    method Spend(id: string, m: Money, ghost intents: map<string, Intent>) returns (r: Result<(), VaultError>)
      requires Valid()
      modifies this
      ensures Valid()
      ensures Answers(r, VaultModel.Spend(old(AsState(intents)), id, m), old(AsState(intents)), AsState(intents))
    {
      hide ParseAmount;
      if id !in envelopes { return Err(EnvelopeNotFound); }
      var e := envelopes[id];
      var checked := CheckAmount(m);
      if checked.Err? { return checked; }
      var comparison := CompareMoney(m, Money(e.available, unit.currency, unit.decimals));
      if comparison.Err? { return Err(MoneyError(comparison.error)); }
      if comparison.value > 0 { return Err(InsufficientBudget); }
      var newSpent := Add(e.spent, m.amount);
      var newAvailable := Subtract(e.allotted, newSpent);
      SetEnvelope(id, e.(spent := newSpent, available := newAvailable));
      r := Ok(());
    }

    method ReverseSpend(id: string, m: Money, ghost intents: map<string, Intent>) returns (r: Result<(), VaultError>)
      requires Valid()
      modifies this
      ensures Valid()
      ensures Answers(r, VaultModel.ReverseSpend(old(AsState(intents)), id, m), old(AsState(intents)), AsState(intents))
    {
      hide ParseAmount;
      if id !in envelopes { return Err(EnvelopeNotFound); }
      var e := envelopes[id];
      var checked := CheckAmount(m);
      if checked.Err? { return checked; }
      var comparison := CompareMoney(m, Money(e.spent, unit.currency, unit.decimals));
      if comparison.Err? { return Err(MoneyError(comparison.error)); }
      if comparison.value > 0 { return Err(VaultError.InvalidAmount); }
      var newSpent := Subtract(e.spent, m.amount);
      var newAvailable := Subtract(e.allotted, newSpent);
      SetEnvelope(id, e.(spent := newSpent, available := newAvailable));
      r := Ok(());
    }

    /** restoreEnvelope: only a consistent envelope is admitted, with its available amount recomputed. */
    method RestoreEnvelope(env: Envelope) returns (r: Result<(), VaultError>)
      requires Valid()
      modifies this
      ensures Valid()
      ensures var consistent := Readable(unit, env.allotted) && Readable(unit, env.spent)
                               && 0 <= Reading(unit, env.spent) <= Reading(unit, env.allotted);
              r.Ok? <==> env.id !in old(envelopes) && consistent
      ensures r.Err? ==> envelopes == old(envelopes)
      ensures r.Ok? ==> BooksOf(unit, envelopes) == BooksOf(unit, old(envelopes))[env.id := BookOf(unit, env)]
    {
      hide ParseAmount;
      if env.id in envelopes { return Err(EnvelopeExists); }
      var allotted, spent := Money(env.allotted, unit.currency, unit.decimals), Money(env.spent, unit.currency, unit.decimals);
      if Scaled(allotted).Err? { return Err(MoneyError(Scaled(allotted).error)); }
      if Scaled(allotted).value < 0 { return Err(InvalidEnvelopeState); }
      if Scaled(spent).Err? { return Err(MoneyError(Scaled(spent).error)); }
      if Scaled(spent).value < 0 { return Err(InvalidEnvelopeState); }
      var comparison := CompareMoney(spent, allotted);
      if comparison.value > 0 { return Err(InvalidEnvelopeState); }
      var available := Subtract(env.allotted, env.spent);
      SetEnvelope(env.id, env.(available := available));
      r := Ok(());
    }
  }

  /** Lifecycle operations against the budget, as one object. */
  class IntentManager {
    const budget: BudgetEngine
    var intents: map<string, Intent>

    ghost predicate Valid()
      reads this, budget
    {
      budget.Valid() && forall id :: id in intents ==> intents[id].id == id
    }

    ghost function Contents(): State
      reads this, budget
    {
      budget.AsState(intents)
    }

    constructor (budget: BudgetEngine)
      requires budget.Valid()
      ensures this.budget == budget && Valid() && intents == map[]
    {
      this.budget := budget;
      intents := map[];
    }

    method Declare(id: string, amount: Option<Money>, envelopeId: string) returns (r: Result<(), VaultError>)
      requires Valid()
      modifies this
      ensures Valid()
      ensures Answers(r, Apply(old(Contents()), VaultModel.Declare(id, amount, envelopeId)), old(Contents()), Contents())
    {
      hide ParseAmount;
      if id in intents { return Err(AlreadyExists); }
      if envelopeId != "" && amount.Some? {
        if envelopeId !in budget.envelopes { return Err(EnvelopeNotFound); }
        var available := Money(budget.envelopes[envelopeId].available, budget.unit.currency, budget.unit.decimals);
        var comparison := CompareMoney(amount.value, available);
        if comparison.Err? { return Err(MoneyError(comparison.error)); }
        if comparison.value > 0 { return Err(BudgetExceeded); }
      }
      intents := intents[id := Intent(id, Declared, amount, envelopeId)];
      r := Ok(());
    }

    /** requireIntent and assertTransition. */
    method Require(id: string, to: Status) returns (r: Result<Intent, VaultError>)
      ensures r == Transitioning(Contents(), id, to)
    {
      if id !in intents { return Err(IntentNotFound); }
      if !Allowed(intents[id].status, to) { return Err(InvalidTransition); }
      r := Ok(intents[id]);
    }

    /** approve, reject, markExecuting and verify differ only in the status they move to. */
    method Move(id: string, to: Status) returns (r: Result<(), VaultError>)
      requires Valid()
      modifies this
      ensures Valid()
      ensures Answers(r, MoveTo(old(Contents()), id, to), old(Contents()), Contents())
    {
      var intent := Require(id, to);
      if intent.Err? { return Err(intent.error); }
      intents := intents[id := intent.value.(status := to)];
      r := Ok(());
    }

    method RecordExecution(id: string) returns (r: Result<(), VaultError>)
      requires Valid()
      modifies this, budget
      ensures Valid()
      ensures Answers(r, Apply(old(Contents()), VaultModel.RecordExecution(id)), old(Contents()), Contents())
    {
      hide VaultModel.Spend;
      var intent := Require(id, Executed);
      if intent.Err? { return Err(intent.error); }
      var i := intent.value;
      if i.envelopeId != "" && i.amount.Some? {
        var spent := budget.Spend(i.envelopeId, i.amount.value, intents);
        if spent.Err? { return spent; }
      }
      intents := intents[id := i.(status := Executed)];
      r := Ok(());
    }

    method RecordFailure(id: string) returns (r: Result<(), VaultError>)
      requires Valid()
      modifies this, budget
      ensures Valid()
      ensures Answers(r, Apply(old(Contents()), VaultModel.RecordFailure(id)), old(Contents()), Contents())
      ensures old(Sound(Contents())) && id in old(intents) && old(intents[id].status in {Executing, Executed}) ==> r.Ok?
    {
      hide VaultModel.ReverseSpend, Sound;
      if Sound(Contents()) {
        RecordFailureNeverRefused(Contents(), id);
      }
      var intent := Require(id, Failed);
      if intent.Err? { return Err(intent.error); }
      var i := intent.value;
      if i.status == Executed && i.envelopeId != "" && i.amount.Some? {
        var reversed := budget.ReverseSpend(i.envelopeId, i.amount.value, intents);
        if reversed.Err? { return reversed; }
      }
      intents := intents[id := i.(status := Failed)];
      r := Ok(());
    }
  }
}
