/** The `Money` value object: a non-negative decimal amount bound to a currency. */
module ValueObjects {
  import opened Wrappers
  import opened Enums
  import opened Strings

  /** The two init-only fields of the record; `amount` is a C# `decimal`, held exactly. */
  datatype MoneyRecord = MoneyRecord(currency: Currency, amount: real)

  /** Every `Money` that exists passed the `Amount` init guard, so its amount is non-negative. */
  type Money = m: MoneyRecord | m.amount >= 0.0 witness MoneyRecord(EUR, 0.0)

  /** The `InvalidOperationException` the `Amount` init accessor throws. */
  datatype MoneyError = NegativeAmount

  /** `new Money(currency, amount)`: fails on a negative amount, otherwise stores both arguments. */
  function NewMoney(currency: Currency, amount: real): (r: Result<Money, MoneyError>)
    ensures r.Failure? <==> amount < 0.0
    ensures r.Failure? ==> r.error == NegativeAmount
    ensures r.Success? ==> r.value.amount == amount && r.value.currency == currency
  {
    if amount < 0.0 then Failure(NegativeAmount) else Success(MoneyRecord(currency, amount))
  }

  /** `new Money()`: chains to `Money(Currency.EUR, 0.00m)`. */
  function DefaultMoney(): (m: Money)
    ensures NewMoney(EUR, 0.0) == Success(m)
  {
    MoneyRecord(EUR, 0.0)
  }

  // ---------------------------------------------------------------
  // ToString: "<Currency> <Amount:0.00>"
  // ---------------------------------------------------------------

  function DigitChar(d: nat): (c: char)
    requires d < 10
    ensures IsDigit(c)
    ensures c as int - '0' as int == d
  {
    ('0' as int + d) as char
  }

  function DigitValue(c: char): (d: nat)
    requires IsDigit(c)
    ensures d < 10 && DigitChar(d) == c
  {
    c as int - '0' as int
  }

  /** Decimal digits of `n`, most significant first, without leading zeros. */
  function NatToDecimal(n: nat): (s: string)
    ensures |s| > 0 && AllDigits(s)
    ensures |s| > 1 ==> s[0] != '0'
  {
    if n < 10 then [DigitChar(n)] else NatToDecimal(n / 10) + [DigitChar(n % 10)]
  }

  /** The value of a string of decimal digits. */
  function DecimalToNat(s: string): nat
    requires AllDigits(s)
  {
    if |s| == 0 then 0 else DecimalToNat(s[..|s| - 1]) * 10 + DigitValue(s[|s| - 1])
  }

  /** Reading back the digits of `n` gives `n`. */
  lemma {:induction false} DecimalRoundTrip(n: nat)
    ensures DecimalToNat(NatToDecimal(n)) == n
  {
    if n >= 10 {
      var s := NatToDecimal(n);
      assert s[..|s| - 1] == NatToDecimal(n / 10);
      DecimalRoundTrip(n / 10);
    }
  }

  /** The amount in hundredths, rounded half away from zero as the "0.00" format does. */
  function Cents(m: Money): (c: nat)
    ensures (c as real) - 0.5 <= m.amount * 100.0 < (c as real) + 0.5
  {
    var f := (m.amount * 100.0 + 0.5).Floor;
    assert f >= 0;
    f
  }

  /** An amount with at most two fractional digits. */
  predicate HasCents(m: Money) {
    ((m.amount * 100.0).Floor as real) == m.amount * 100.0
  }

  /**
   * `Money.ToString()`, with '.' as the decimal separator: the currency's
   * name, one space, and the amount with exactly two fractional digits.
   */
  function MoneyToString(m: Money): (r: string)
    ensures var name := CurrencyName(m.currency);
      && |r| >= |name| + 5
      && r[..|name|] == name && r[|name|] == ' '
      && r[|r| - 3] == '.' && IsDigit(r[|r| - 2]) && IsDigit(r[|r| - 1])
  {
    var c := Cents(m);
    CurrencyName(m.currency) + " " + NatToDecimal(c / 100) + "." + [DigitChar(c / 10 % 10), DigitChar(c % 10)]
  }

  /** Position of the first space in `s`, or `|s|` when there is none. */
  function IndexOfSpace(s: string): (k: nat)
    ensures k <= |s|
    ensures ' ' !in s[..k]
    ensures k < |s| ==> s[k] == ' '
  {
    if |s| == 0 || s[0] == ' ' then 0
    else
      var k := 1 + IndexOfSpace(s[1..]);
      assert s[..k] == [s[0]] + s[1..][..k - 1];
      k
  }

  /** The first space is the one at `k` when none comes before it. */
  lemma {:induction false} IndexOfSpaceAt(s: string, k: nat)
    requires k < |s| && ' ' !in s[..k] && s[k] == ' '
    ensures IndexOfSpace(s) == k
  {
    if k > 0 {
      assert s[0] in s[..k];
      assert s[1..][..k - 1] == s[1..k];
      assert s[1..k] <= s[..k][1..];
      IndexOfSpaceAt(s[1..], k - 1);
    }
  }

  /** The Money worth `cents` hundredths of `currency`; it has at most two fractional digits. */
  function FromCents(currency: Currency, cents: nat): (m: Money)
    ensures m.currency == currency && m.amount * 100.0 == cents as real
    ensures HasCents(m)
  {
    var m := MoneyRecord(currency, cents as real / 100.0);
    assert m.amount * 100.0 == cents as real;
    assert (cents as real).Floor == cents;
    m
  }

  /** The amount after the space: digits, '.', two digits, read as hundredths. */
  function ParseCents(rest: string): (c: Option<nat>)
    ensures c.Some? ==> |rest| >= 4 && rest[|rest| - 3] == '.'
  {
    if |rest| < 4 || rest[|rest| - 3] != '.' then None
    else
      var whole := rest[..|rest| - 3];
      var fraction := rest[|rest| - 2..];
      if !AllDigits(whole) || !AllDigits(fraction) then None
      else Some(DecimalToNat(whole) * 100 + DecimalToNat(fraction))
  }

  /** Reads back the text `MoneyToString` produces; whatever it reads has at most two fractional digits. */
  function ParseMoney(s: string): (r: Option<Money>)
    ensures r.Some? ==> HasCents(r.value)
  {
    var k := IndexOfSpace(s);
    if k == |s| then None
    else
      var currency := CurrencyFromName(s[..k]);
      var cents := ParseCents(s[k + 1..]);
      if currency.None? || cents.None? then None
      else Some(FromCents(currency.value, cents.value))
  }

  /** Parsing the text of a currency, a whole part and two fractional digits recovers all three. */
  lemma ParseComposed(currency: Currency, whole: nat, d1: nat, d2: nat)
    requires d1 < 10 && d2 < 10
    ensures ParseMoney(CurrencyName(currency) + " " + NatToDecimal(whole) + "." + [DigitChar(d1), DigitChar(d2)])
         == Some(FromCents(currency, whole * 100 + d1 * 10 + d2))
  {
    CurrencyNameRoundTrip(currency);
    CentsComposed(whole, d1, d2);
    ParseAssembled(CurrencyName(currency), currency, NatToDecimal(whole), [DigitChar(d1), DigitChar(d2)], whole * 100 + d1 * 10 + d2);
  }

  /** A known currency name, one space and an amount text read back as that currency and amount. */
  lemma ParseAssembled(name: string, currency: Currency, digits: string, fraction: string, cents: nat)
    requires CurrencyFromName(name) == Some(currency) && ' ' !in name
    requires ParseCents(digits + "." + fraction) == Some(cents)
    ensures ParseMoney(name + " " + digits + "." + fraction) == Some(FromCents(currency, cents))
  {
    ParseRegrouped(name, digits, fraction);
    ParseNamed(name, currency, digits + "." + fraction);
  }

  /** The amount text of a whole part and two digits reads back as its hundredths. */
  lemma CentsComposed(whole: nat, d1: nat, d2: nat)
    requires d1 < 10 && d2 < 10
    ensures ParseCents(NatToDecimal(whole) + "." + [DigitChar(d1), DigitChar(d2)]) == Some(whole * 100 + d1 * 10 + d2)
  {
    CentsParts(NatToDecimal(whole), [DigitChar(d1), DigitChar(d2)]);
    DecimalRoundTrip(whole);
    TwoDigits(d1, d2);
  }

  /** Where the parts of the text are joined does not matter to the parser. */
  lemma ParseRegrouped(name: string, digits: string, fraction: string)
    ensures ParseMoney(name + " " + digits + "." + fraction) == ParseMoney(name + " " + (digits + "." + fraction))
  {
    assert name + " " + digits + "." + fraction == name + " " + (digits + "." + fraction);
  }

  /** After a known currency name and one space, the amount decides the parse. */
  lemma ParseNamed(name: string, currency: Currency, rest: string)
    requires CurrencyFromName(name) == Some(currency) && ' ' !in name
    ensures ParseMoney(name + " " + rest)
         == if ParseCents(rest).Some? then Some(FromCents(currency, ParseCents(rest).value)) else None
  {
    Joined(name, ' ', rest);
    IndexOfSpaceAt(name + " " + rest, |name|);
  }

  /** The parts of `a`, one separator, `b` can be cut out again. */
  lemma Joined<T>(a: seq<T>, sep: T, b: seq<T>)
    ensures var s := a + [sep] + b;
      && |s| == |a| + 1 + |b| && s[..|a|] == a && s[|a|] == sep && s[|a| + 1..] == b
  {
    var s := a + [sep] + b;
    assert s[..|a|] == a;
    assert s[|a| + 1..] == b;
  }

  /** Digits, a '.', and two digits read as the hundredths they spell. */
  lemma CentsParts(digits: string, fraction: string)
    requires |digits| > 0 && AllDigits(digits) && |fraction| == 2 && AllDigits(fraction)
    ensures ParseCents(digits + "." + fraction) == Some(DecimalToNat(digits) * 100 + DecimalToNat(fraction))
  {
    Joined(digits, '.', fraction);
  }

  /** Two digits read back as their two-digit number. */
  lemma TwoDigits(d1: nat, d2: nat)
    requires d1 < 10 && d2 < 10
    ensures DecimalToNat([DigitChar(d1), DigitChar(d2)]) == d1 * 10 + d2
  {
    var fraction := [DigitChar(d1), DigitChar(d2)];
    assert fraction[..1] == [DigitChar(d1)];
    assert fraction[..1][..0] == [];
    assert DecimalToNat(fraction[..1]) == d1;
  }

  /**
   * The text of a Money value reads back as the same currency and the amount
   * rounded to the nearest cent, so within half a cent of the original.
   */
  lemma ParseToString(m: Money)
    ensures ParseMoney(MoneyToString(m)).Some?
    ensures ParseMoney(MoneyToString(m)).value.currency == m.currency
    ensures ParseMoney(MoneyToString(m)).value.amount == Cents(m) as real / 100.0
    ensures -0.005 < ParseMoney(MoneyToString(m)).value.amount - m.amount <= 0.005
  {
    var c := Cents(m);
    ParseComposed(m.currency, c / 100, c / 10 % 10, c % 10);
    SplitCents(c);
    WithinHalfCent(c, m.amount);
  }

  lemma SplitCents(c: nat)
    ensures (c / 100) * 100 + (c / 10 % 10) * 10 + c % 10 == c
  {
    assert c / 10 == (c / 100) * 10 + c / 10 % 10;
  }

  lemma WithinHalfCent(c: nat, a: real)
    requires (c as real) - 0.5 <= a * 100.0 < (c as real) + 0.5
    ensures -0.005 < (c as real) / 100.0 - a <= 0.005
  {
  }

  /** For an amount with at most two fractional digits, the text reads back as the very same value. */
  lemma ParseToStringExact(m: Money)
    requires HasCents(m)
    ensures ParseMoney(MoneyToString(m)) == Some(m)
  {
    ParseToString(m);
    assert Cents(m) == (m.amount * 100.0).Floor;
  }
}
