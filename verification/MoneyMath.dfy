/** Decimal-string money: parsing into scaled integers, formatting back, and the arithmetic built on
    the two (packages/ledger/src/money-math.ts). */
module MoneyMath {
  import opened Wrappers
  import opened Decimal

  datatype Money = Money(amount: string, currency: string, decimals: int)

  datatype LedgerError =
    | InvalidAmount
    | InvalidMoney
    | CurrencyMismatch
    | EmptyTransaction
    | MixedCorrelationId
    | DuplicateEntryId
    | DuplicateAccountId
    | UnknownAccount
    | UnbalancedTransaction
    | UnsupportedSnapshotVersion

  // ---------------------------------------------------------------- text

  /** The characters that String.prototype.trim removes. */
  predicate IsSpace(c: char) {
    c == ' ' || '\t' <= c <= '\r' || c == '\U{A0}' || c == '\U{1680}' || '\U{2000}' <= c <= '\U{200A}'
    || c == '\U{2028}' || c == '\U{2029}' || c == '\U{202F}' || c == '\U{205F}' || c == '\U{3000}'
    || c == '\U{FEFF}'
  }

  function Trim(s: string): string {
    if s == [] then []
    else if IsSpace(s[0]) then Trim(s[1..])
    else if IsSpace(s[|s| - 1]) then Trim(s[..|s| - 1])
    else s
  }

  function IndexOf(s: string, c: char): (i: nat)
    ensures i <= |s| && c !in s[..i]
    ensures i < |s| ==> s[i] == c
  {
    if s == [] || s[0] == c then 0
    else
      var i := 1 + IndexOf(s[1..], c);
      assert s[..i] == [s[0]] + s[1..][..i - 1];
      i
  }

  /** A trimmed amount cut at its sign and its first decimal point. */
  datatype Parts = Parts(negative: bool, whole: string, dotted: bool, frac: string) {
    /** What /^-?\d+(\.\d+)?$/ accepts. */
    predicate WellFormed() {
      && |whole| > 0 && AllDigits(whole) && AllDigits(frac)
      && (dotted <==> |frac| > 0)
    }

    function Unsigned(): string {
      if dotted then whole + ("." + frac) else whole
    }

    function Text(): string {
      if negative then "-" + Unsigned() else Unsigned()
    }
  }

  function CutUnsigned(negative: bool, abs: string): Parts {
    var dot := IndexOf(abs, '.');
    if dot < |abs| then Parts(negative, abs[..dot], true, abs[dot + 1..])
    else Parts(negative, abs, false, "")
  }

  function Cut(t: string): Parts {
    if t != [] && t[0] == '-' then CutUnsigned(true, t[1..]) else CutUnsigned(false, t)
  }

  // ---------------------------------------------------------------- parse and format

  /** parseAmount: the amount in units of 10^-decimals, or InvalidAmount. */
  function ParseAmount(amount: string, decimals: int): Result<int, LedgerError> {
    var trimmed := Trim(amount);
    if trimmed == "" then Err(InvalidAmount) else ParseParts(Cut(trimmed), decimals)
  }

  function ParseParts(p: Parts, decimals: int): (r: Result<int, LedgerError>)
    ensures r.Ok? ==> decimals >= 0
  {
    if !p.WellFormed() || |p.frac| > decimals then Err(InvalidAmount)
    else
      ValueZeros(decimals - |p.frac|);
      Ok(Signed(p.negative, Value(p.whole + (p.frac + Zeros(decimals - |p.frac|)))))
  }

  function Signed(negative: bool, v: int): int {
    if negative then -v else v
  }

  function Abs(n: int): nat {
    if n < 0 then -n else n
  }

  function PadStart(s: string, n: nat): string {
    if |s| < n then Zeros(n - |s|) + s else s
  }

  /** formatAmount: the canonical text of a scaled integer. */
  function FormatAmount(scaled: int, decimals: nat): string {
    if scaled < 0 then "-" + FormatUnsigned(-scaled, decimals) else FormatUnsigned(scaled, decimals)
  }

  function FormatUnsigned(abs: nat, decimals: nat): string {
    if decimals == 0 then Show(abs)
    else
      var str := PadStart(Show(abs), decimals + 1);
      str[..|str| - decimals] + ("." + str[|str| - decimals..])
  }

  /** The one spelling of each value: no superfluous zero in front, exactly `decimals` fraction
      digits, and no minus sign on zero. */
  predicate Canonical(t: string, decimals: nat) {
    var p := Cut(t);
    && p.WellFormed() && Shortest(p.whole) && |p.frac| == decimals
    && (p.negative ==> exists i :: 0 <= i < |p.whole + p.frac| && (p.whole + p.frac)[i] != '0')
  }

  // ---------------------------------------------------------------- lemmas about text

  lemma DotAt(whole: string, frac: string)
    requires AllDigits(whole)
    ensures IndexOf(whole, '.') == |whole|
    ensures IndexOf(whole + ("." + frac), '.') == |whole|
  {
    var abs := whole + ("." + frac);
    var dot := IndexOf(abs, '.');
    assert abs[|whole|] == '.';
    assert dot <= |whole|;
  }

  lemma CutText(p: Parts)
    requires p.WellFormed()
    ensures Cut(p.Text()) == p
  {
    var abs, t := p.Unsigned(), p.Text();
    DotAt(p.whole, p.frac);
    assert abs[0] == p.whole[0] && IsDigit(abs[0]);
    if p.dotted {
      assert abs[..|p.whole|] == p.whole && abs[|p.whole| + 1..] == p.frac;
    }
    assert CutUnsigned(p.negative, abs) == p;
    if p.negative {
      assert t[1..] == abs;
    }
  }

  lemma TrimText(p: Parts)
    requires p.WellFormed()
    ensures Trim(p.Text()) == p.Text() != ""
  {
    var abs, t := p.Unsigned(), p.Text();
    assert abs[0] == p.whole[0] && IsDigit(abs[0]);
    assert IsDigit(abs[|abs| - 1]) by {
      assert abs[|abs| - 1] == if p.dotted then p.frac[|p.frac| - 1] else p.whole[|p.whole| - 1];
    }
    assert t[0] == '-' || t[0] == abs[0];
    assert t[|t| - 1] == abs[|abs| - 1];
  }

  lemma UnsignedCut(negative: bool, abs: string)
    ensures CutUnsigned(negative, abs).Unsigned() == abs
  {
    var dot := IndexOf(abs, '.');
    if dot < |abs| {
      assert abs == abs[..dot] + ([abs[dot]] + abs[dot + 1..]);
    }
  }

  lemma TextCut(t: string)
    requires Cut(t).WellFormed()
    ensures Cut(t).Text() == t
  {
    hide AllDigits;
    var p := Cut(t);
    var abs := if p.negative then t[1..] else t;
    UnsignedCut(p.negative, abs);
    if p.negative {
      assert t == "-" + abs;
    }
  }

  /** The digits formatAmount cuts in two. */
  function Digits(n: int, d: nat): string {
    PadStart(Show(Abs(n)), d + 1)
  }

  lemma DigitsValue(n: int, d: nat)
    ensures var str := Digits(n, d); |str| > d && AllDigits(str) && Value(str) == Abs(n)
  {
    var shown := Show(Abs(n));
    ShowValue(Abs(n));
    if |shown| < d + 1 {
      ValueZeros(d + 1 - |shown|);
      ValueConcat(Zeros(d + 1 - |shown|), shown);
    }
  }

  function FormatParts(n: int, d: nat): Parts {
    var str := Digits(n, d);
    DigitsValue(n, d);
    Parts(n < 0, str[..|str| - d], d > 0, str[|str| - d..])
  }

  lemma FormatText(n: int, d: nat)
    ensures var p := FormatParts(n, d); p.WellFormed() && FormatAmount(n, d) == p.Text()
    ensures FormatParts(n, d).whole + FormatParts(n, d).frac == Digits(n, d)
  {
    hide Value, Show, Zeros;
    DigitsValue(n, d);
    ShowValue(Abs(n));
    var str := Digits(n, d);
    assert str[..|str|] == str;
    assert FormatParts(n, d).Unsigned() == FormatUnsigned(Abs(n), d);
  }

  lemma ParseText(p: Parts, d: int)
    requires p.WellFormed()
    ensures ParseAmount(p.Text(), d) == ParseParts(p, d)
  {
    CutText(p);
    TrimText(p);
  }

  /** A text is accepted at a scale exactly if, trimmed, it is an optional minus sign, digits and perhaps a point
      and more digits, no more than the scale; its value is that of the digits padded to the scale. */
  lemma ParseExactly(s: string, d: int)
    ensures ParseAmount(s, d).Ok? <==> exists p: Parts :: p.WellFormed() && p.Text() == Trim(s) && |p.frac| <= d
    ensures forall p: Parts :: p.WellFormed() && p.Text() == Trim(s) && |p.frac| <= d ==>
              AllDigits(p.whole + p.frac)
              && ParseAmount(s, d) == Ok((if p.negative then -1 else 1) * (Value(p.whole + p.frac) * Pow10(d - |p.frac|)))
    ensures ParseAmount(s, d).Err? ==> ParseAmount(s, d) == Err(InvalidAmount)
  {
    hide Value, Pow10, Trim;
    var t := Trim(s);
    if ParseAmount(s, d).Ok? {
      TextCut(t);
      assert Cut(t).WellFormed() && Cut(t).Text() == t;
    }
    forall p: Parts | p.WellFormed() && p.Text() == t && |p.frac| <= d
      ensures AllDigits(p.whole + p.frac)
      ensures ParseAmount(s, d) == Ok((if p.negative then -1 else 1) * (Value(p.whole + p.frac) * Pow10(d - |p.frac|)))
    {
      CutText(p);
      TextNotEmpty(p);
      PaddedValue(p.whole, p.frac, d - |p.frac|);
    }
  }

  lemma TextNotEmpty(p: Parts)
    requires p.WellFormed()
    ensures p.Text() != ""
  {
  }

  predicate AllSpace(s: string) {
    forall c :: c in s ==> IsSpace(c)
  }

  lemma SpaceAdded(s: string, c: char)
    requires AllSpace(s) && IsSpace(c)
    ensures AllSpace([c] + s) && AllSpace(s + [c])
  {
    hide IsSpace;
  }

  /** Trimming takes off exactly the space characters at both ends. */
  lemma {:induction false} TrimExactly(s: string) returns (before: string, after: string)
    ensures s == before + Trim(s) + after && AllSpace(before) && AllSpace(after)
    ensures Trim(s) != "" ==> !IsSpace(Trim(s)[0]) && !IsSpace(Trim(s)[|Trim(s)| - 1])
  {
    hide IsSpace, AllSpace;
    if s == [] {
      before, after := "", "";
      assert AllSpace("") by { NothingIsSpace(); }
    } else if IsSpace(s[0]) {
      var inner;
      inner, after := TrimExactly(s[1..]);
      before := [s[0]] + inner;
      SpaceAdded(inner, s[0]);
      assert s == [s[0]] + s[1..];
    } else if IsSpace(s[|s| - 1]) {
      var inner;
      before, inner := TrimExactly(s[..|s| - 1]);
      after := inner + [s[|s| - 1]];
      SpaceAdded(inner, s[|s| - 1]);
      assert s == s[..|s| - 1] + [s[|s| - 1]];
    } else {
      before, after := "", "";
      assert AllSpace("") by { NothingIsSpace(); }
      assert s == "" + s + "";
    }
  }

  lemma NothingIsSpace()
    ensures AllSpace("")
  {
  }

  lemma ParseFull(p: Parts, d: nat)
    requires p.WellFormed() && |p.frac| == d
    ensures AllDigits(p.whole + p.frac)
    ensures ParseParts(p, d) == Ok(Signed(p.negative, Value(p.whole + p.frac)))
  {
    assert p.frac + Zeros(0) == p.frac;
  }

  lemma PaddedValue(whole: string, frac: string, n: nat)
    requires AllDigits(whole) && AllDigits(frac)
    ensures AllDigits(whole + frac) && AllDigits(whole + (frac + Zeros(n)))
    ensures Value(whole + (frac + Zeros(n))) == Value(whole + frac) * Pow10(n)
  {
    ValueZeros(n);
    ValueConcat(whole + frac, Zeros(n));
    assert whole + (frac + Zeros(n)) == (whole + frac) + Zeros(n);
  }

  lemma {:induction false} PadShow(s: string)
    requires AllDigits(s) && |s| > 0
    ensures PadStart(Show(Value(s)), |s|) == s
  {
    if Shortest(s) {
      ValueShow(s);
    } else {
      var rest := s[1..];
      assert s == ['0'] + rest;
      assert Value(['0']) == 0 by { assert ['0'][..0] == []; }
      ValueConcat(['0'], rest);
      PadShow(rest);
      var shown := Show(Value(rest));
      assert |shown| <= |rest|;
      assert Zeros(|s| - |shown|) == ['0'] + Zeros(|rest| - |shown|);
    }
  }

  lemma {:induction false} ValuePositive(s: string)
    requires AllDigits(s)
    ensures Value(s) > 0 <==> exists i :: 0 <= i < |s| && s[i] != '0'
  {
    if s != [] {
      var init := s[..|s| - 1];
      ValuePositive(init);
      if Value(init) > 0 {
        var i :| 0 <= i < |init| && init[i] != '0';
        assert s[i] != '0';
      } else if s[|s| - 1] == '0' {
        forall i | 0 <= i < |s|
          ensures s[i] == '0'
        {
          assert i < |init| ==> s[i] == init[i];
        }
      }
    }
  }

  // ---------------------------------------------------------------- main results

  /** Formatting loses nothing: every integer at every scale is read back. */
  lemma ParseFormat(n: int, d: nat)
    ensures ParseAmount(FormatAmount(n, d), d) == Ok(n)
  {
    var p := FormatParts(n, d);
    FormatText(n, d);
    DigitsValue(n, d);
    ParseText(p, d);
    ParseFull(p, d);
    assert Signed(n < 0, Abs(n)) == n;
  }

  /** Formatting only ever writes canonical text ... */
  lemma FormatCanonical(n: int, d: nat)
    ensures Canonical(FormatAmount(n, d), d)
  {
    FormatText(n, d);
    DigitsValue(n, d);
    CutText(FormatParts(n, d));
    ShowValue(Abs(n));
    ValuePositive(Digits(n, d));
    var shown, whole := Show(Abs(n)), FormatParts(n, d).whole;
    if |shown| > d + 1 {
      assert whole[0] == shown[0];
    }
  }

  /** ... and a canonical text is the only one of its value: it is what formatting its value gives. */
  lemma CanonicalIsFormat(t: string, d: nat)
    requires Canonical(t, d)
    ensures ParseAmount(t, d).Ok? && FormatAmount(ParseAmount(t, d).value, d) == t
  {
    var p := Cut(t);
    var s := p.whole + p.frac;
    TextCut(t);
    ParseText(p, d);
    ParseFull(p, d);
    var v := Signed(p.negative, Value(s));
    ValuePositive(s);
    assert Abs(v) == Value(s) && (v < 0 <==> p.negative);
    assert Digits(v, d) == s by {
      if |p.whole| == 1 {
        PadShow(s);
      } else {
        assert s[0] == p.whole[0];
        ValueShow(s);
      }
    }
    FormatText(v, d);
    assert s[..|s| - d] == p.whole && s[|s| - d..] == p.frac;
    assert FormatParts(v, d) == p;
  }

  /** All accepted spellings of one value format to one canonical text, which has that value and is
      unique in having it. */
  lemma OneCanonicalSpelling(s: string, t: string, d: nat)
    requires ParseAmount(s, d).Ok? && Canonical(t, d)
    ensures var c := FormatAmount(ParseAmount(s, d).value, d);
            && Canonical(c, d) && ParseAmount(c, d) == ParseAmount(s, d)
            && (t == c <==> ParseAmount(t, d) == ParseAmount(s, d))
  {
    var v := ParseAmount(s, d).value;
    ParseFormat(v, d);
    FormatCanonical(v, d);
    CanonicalIsFormat(t, d);
  }

  /** One spelling read at two scales denotes one rational number. */
  lemma ParseRescale(s: string, d: int, e: int)
    requires ParseAmount(s, d).Ok? && d <= e
    ensures d >= 0
    ensures ParseAmount(s, e) == Ok(ParseAmount(s, d).value * Pow10(e - d))
  {
    hide ParseParts, Cut, Trim, Pow10;
    RescaleParts(Cut(Trim(s)), d, e);
  }

  lemma RescaleParts(p: Parts, d: int, e: int)
    requires ParseParts(p, d).Ok? && d <= e
    ensures d >= 0
    ensures ParseParts(p, e) == Ok(ParseParts(p, d).value * Pow10(e - d))
  {
    hide Value, Pow10;
    PaddedTwice(p, d, e);
    var v: int := Value(p.whole + (p.frac + Zeros(d - |p.frac|)));
    SignedTimes(p.negative, v, Pow10(e - d));
  }

  lemma PaddedTwice(p: Parts, d: int, e: int)
    requires p.WellFormed() && |p.frac| <= d <= e
    ensures AllDigits(p.whole + (p.frac + Zeros(d - |p.frac|))) && AllDigits(p.whole + (p.frac + Zeros(e - |p.frac|)))
    ensures Value(p.whole + (p.frac + Zeros(e - |p.frac|)))
         == Value(p.whole + (p.frac + Zeros(d - |p.frac|))) * Pow10(e - d)
  {
    var frac := p.frac + Zeros(d - |p.frac|);
    ValueZeros(d - |p.frac|);
    PaddedValue(p.whole, frac, e - d);
    assert frac + Zeros(e - d) == p.frac + Zeros(e - |p.frac|);
  }

  lemma SignedTimes(negative: bool, v: int, k: int)
    ensures Signed(negative, v) * k == Signed(negative, v * k)
  {
  }

  // ---------------------------------------------------------------- money

  function Scaled(m: Money): Result<int, LedgerError> {
    ParseAmount(m.amount, m.decimals)
  }

  function ValidateMoney(m: Money): Result<(), LedgerError> {
    if Trim(m.amount) == "" || Trim(m.currency) == "" || m.decimals < 0 then Err(InvalidMoney)
    else if Scaled(m).Err? then Err(Scaled(m).error)
    else Ok(())
  }

  function AddMoney(a: Money, b: Money): Result<Money, LedgerError> {
    if a.currency != b.currency || a.decimals != b.decimals then Err(CurrencyMismatch)
    else
      var va :- Scaled(a);
      var vb :- Scaled(b);
      Ok(Money(FormatAmount(va + vb, a.decimals), a.currency, a.decimals))
  }

  function SubtractMoney(a: Money, b: Money): Result<Money, LedgerError> {
    if a.currency != b.currency || a.decimals != b.decimals then Err(CurrencyMismatch)
    else
      var va :- Scaled(a);
      var vb :- Scaled(b);
      Ok(Money(FormatAmount(va - vb, a.decimals), a.currency, a.decimals))
  }

  /** -1, 0 or 1 as a is below, equal to or above b. */
  function CompareMoney(a: Money, b: Money): Result<int, LedgerError> {
    if a.currency != b.currency || a.decimals != b.decimals then Err(CurrencyMismatch)
    else
      var va :- Scaled(a);
      var vb :- Scaled(b);
      Ok(if va < vb then -1 else if va > vb then 1 else 0)
  }

  /** Addition and subtraction are exact through the string form, undo each other, and answer only
      for one currency at one scale. */
  lemma MoneyArithmeticExact(a: Money, b: Money)
    ensures AddMoney(a, b).Ok? <==> Addable(a, b)
    ensures SubtractMoney(a, b).Ok? <==> Addable(a, b)
    ensures Addable(a, b) ==>
              && Scaled(AddMoney(a, b).value) == Ok(Scaled(a).value + Scaled(b).value)
              && Scaled(SubtractMoney(a, b).value) == Ok(Scaled(a).value - Scaled(b).value)
              && SubtractMoney(AddMoney(a, b).value, b).Ok?
              && Scaled(SubtractMoney(AddMoney(a, b).value, b).value) == Scaled(a)
  {
    hide ParseAmount, FormatAmount;
    if Addable(a, b) {
      AddExact(a, b);
      SubtractExact(a, b);
      SubtractExact(AddMoney(a, b).value, b);
    }
  }

  predicate Addable(a: Money, b: Money) {
    a.currency == b.currency && a.decimals == b.decimals && Scaled(a).Ok? && Scaled(b).Ok?
  }

  lemma AddExact(a: Money, b: Money)
    requires Addable(a, b)
    ensures AddMoney(a, b).Ok? && Addable(AddMoney(a, b).value, b)
    ensures Scaled(AddMoney(a, b).value) == Ok(Scaled(a).value + Scaled(b).value)
  {
    hide FormatAmount, ParseParts, Trim, Cut;
    ParseFormat(Scaled(a).value + Scaled(b).value, a.decimals);
  }

  lemma SubtractExact(a: Money, b: Money)
    requires Addable(a, b)
    ensures SubtractMoney(a, b).Ok? && Addable(SubtractMoney(a, b).value, b)
    ensures Scaled(SubtractMoney(a, b).value) == Ok(Scaled(a).value - Scaled(b).value)
  {
    hide FormatAmount, ParseParts, Trim, Cut;
    ParseFormat(Scaled(a).value - Scaled(b).value, a.decimals);
  }

  /** Comparison answers for one currency at one scale, with the sign of the difference. */
  lemma CompareExact(a: Money, b: Money)
    ensures CompareMoney(a, b).Ok? <==> Addable(a, b)
    ensures Addable(a, b) ==>
              && -1 <= CompareMoney(a, b).value <= 1
              && (CompareMoney(a, b).value > 0 <==> Scaled(a).value > Scaled(b).value)
              && (CompareMoney(a, b).value < 0 <==> Scaled(a).value < Scaled(b).value)
  {
    hide ParseAmount;
  }

  /** Comparison does not depend on the scale: where the same two texts are compared at a larger one it answers
      the same. */
  lemma CompareAcrossScales(a: Money, b: Money, decimals: int)
    requires a.decimals <= decimals
    ensures CompareMoney(a, b).Ok? ==>
              CompareMoney(a.(decimals := decimals), b.(decimals := decimals)) == CompareMoney(a, b)
  {
    hide ParseAmount, Pow10, CompareMoney;
    CompareExact(a, b);
    CompareExact(a.(decimals := decimals), b.(decimals := decimals));
    if Addable(a, b) {
      ParseRescale(a.amount, a.decimals, decimals);
      ParseRescale(b.amount, b.decimals, decimals);
      TimesKeepsOrder(Scaled(a).value, Scaled(b).value, Pow10(decimals - a.decimals));
    }
  }

  lemma TimesKeepsOrder(x: int, y: int, p: int)
    requires p > 0
    ensures (x < y <==> x * p < y * p) && (x > y <==> x * p > y * p)
  {
    if x < y {
      assert (y - x) * p > 0;
    } else if x > y {
      assert (x - y) * p > 0;
    }
  }

  /** Comparison is a total preorder, with equality being one canonical text. */
  lemma CompareOrders(a: Money, b: Money, c: Money)
    requires Addable(a, b) && Addable(b, c)
    ensures CompareMoney(a, b).Ok? && CompareMoney(b, c).Ok? && CompareMoney(a, c).Ok? && CompareMoney(b, a).Ok?
    ensures CompareMoney(b, a).value == -CompareMoney(a, b).value
    ensures CompareMoney(a, b).value <= 0 && CompareMoney(b, c).value <= 0 ==> CompareMoney(a, c).value <= 0
    ensures CompareMoney(a, b).value == 0 <==> FormatAmount(Scaled(a).value, a.decimals) == FormatAmount(Scaled(b).value, b.decimals)
    ensures CompareMoney(a, b).value == 0 <==> SubtractMoney(a, b) == Ok(Money(FormatAmount(0, a.decimals), a.currency, a.decimals))
    ensures CompareMoney(AddMoney(a, b).value, AddMoney(a, c).value) == CompareMoney(b, c)
  {
    hide ParseAmount, FormatAmount, CompareMoney;
    CompareExact(a, b);
    CompareExact(b, c);
    CompareExact(a, c);
    CompareExact(b, a);
    ParseRescale(a.amount, a.decimals, a.decimals);
    ParseFormat(Scaled(a).value, a.decimals);
    ParseFormat(Scaled(b).value, b.decimals);
    ParseFormat(0, a.decimals);
    ParseFormat(Scaled(a).value - Scaled(b).value, a.decimals);
    AddExact(a, b);
    AddExact(a, c);
    CompareExact(AddMoney(a, b).value, AddMoney(a, c).value);
  }
}
