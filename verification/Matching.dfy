/** What the reconciler's matchers share: their inputs, their findings, and money as exact rational numbers
    (packages/reconciler/src/types.ts). An absent optional string is the empty string: the source tests both
    with the same truthiness check. */
module Matching {
  import opened Wrappers
  import opened Decimal
  import opened MoneyMath

  datatype Intent = Intent(
    id: string, status: string, amount: Option<Money>, txHash: string, chainId: string,
    correlationId: string, declaredAt: string)

  datatype EntryType = Debit | Credit

  datatype LedgerEntry = LedgerEntry(
    id: string, entryType: EntryType, money: Money, intentId: string, txHash: string,
    correlationId: string, timestamp: string)

  datatype ChainEvent = ChainEvent(
    chainId: string, txHash: string, amount: string, symbol: string, decimals: int, timestamp: string)

  datatype Status = Matched | AmountMismatch | MissingLedger | MissingIntent | MissingChain | Unmatched

  datatype Code = LedgerIsMissing | IntentIsMissing | ChainIsMissing | AmountDiffers | CurrencyDiffers | DecimalsDiffer

  /** A match: the intent id, transaction hash or both that it is about, and what was found. */
  datatype Match = Match(intentId: string, txHash: string, status: Status, codes: seq<Code>)

  predicate Done(i: Intent) {
    i.status == "executed" || i.status == "verified"
  }

  /** The order of JavaScript's < on strings. */
  predicate Less(a: string, b: string) {
    b != "" && (a == "" || a[0] < b[0] || (a[0] == b[0] && Less(a[1..], b[1..])))
  }

  ghost predicate AllMatched(results: seq<Match>) {
    forall k :: 0 <= k < |results| ==> results[k].status == Matched
  }

  lemma AllMatchedConcat(a: seq<Match>, b: seq<Match>)
    ensures AllMatched(a + b) <==> AllMatched(a) && AllMatched(b)
  {
    assert forall k :: 0 <= k < |a| ==> (a + b)[k] == a[k];
    assert forall k :: 0 <= k < |b| ==> (a + b)[|a| + k] == b[k];
  }

  // ---------------------------------------------------------------- exact amounts

  function Pow(n: nat): real {
    Pow10(n) as real
  }

  /** v units of 10^-d. */
  function Rational(v: int, d: int): real {
    if d >= 0 then v as real / Pow(d) else v as real * Pow(-d)
  }

  /** The exact amount a money value denotes; 0 when it does not parse. */
  function Exact(m: Money): real {
    if Scaled(m).Ok? then Rational(Scaled(m).value, m.decimals) else 0.0
  }

  function ExactSum(entries: seq<LedgerEntry>): real {
    if entries == [] then 0.0 else ExactSum(entries[..|entries| - 1]) + Exact(entries[|entries| - 1].money)
  }

  lemma CancelReal(v: real, p: real, q: real)
    requires p > 0.0
    ensures v / p * (p * q) == v * q
  {
    var x := v / p;
    assert x * p == v;
    assert x * (p * q) == (x * p) * q;
  }

  lemma ScaleReal(v: real, p: real, q: real)
    ensures v * p * q == v * (p * q)
  {
  }

  lemma PowPositive(n: nat)
    ensures Pow(n) > 0.0
  {
  }

  lemma CastTimes(v: int, w: int)
    ensures (v * w) as real == v as real * w as real
  {
  }

  /** Scaling to a common base multiplies the exact amount by that base. */
  lemma Normalized(v: int, d: int, k: nat)
    requires d <= k
    ensures (v * Pow10(k - d)) as real == Rational(v, d) * Pow(k)
  {
    hide Pow10;
    CastTimes(v, Pow10(k - d));
    if d >= 0 {
      Pow10Add(d, k - d);
      CastTimes(Pow10(d), Pow10(k - d));
      CancelReal(v as real, Pow(d), Pow(k - d));
    } else {
      Pow10Add(-d, k);
      CastTimes(Pow10(-d), Pow10(k));
      ScaleReal(v as real, Pow(-d), Pow(k));
    }
  }

  lemma SameScaled(a: real, b: real, p: real)
    requires p > 0.0
    ensures a * p == b * p <==> a == b
  {
    if a * p == b * p {
      assert (a - b) * p == 0.0;
    }
  }

  /** So comparing at a common base compares the exact amounts. */
  lemma CompareNormalized(v: int, d: int, w: int, e: int, k: nat)
    requires d <= k && e <= k
    ensures v * Pow10(k - d) == w * Pow10(k - e) <==> Rational(v, d) == Rational(w, e)
  {
    hide Pow10, Rational, Pow;
    Normalized(v, d, k);
    Normalized(w, e, k);
    PowPositive(k);
    SameScaled(Rational(v, d), Rational(w, e), Pow(k));
  }
}
