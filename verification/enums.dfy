/** The two enumerations the core depends on, with `Enum.ToString()` and its inverse. */
module Enums {
  import opened Wrappers

  /** `ContactType`; its C# member `None` (= 0) is called `NoContactType` here. */
  datatype ContactType = NoContactType | Name | MobilePhone | PhoneNumber | Email | Linkedin | Facebook | Website

  /** `Currency`; its C# member `None` (= 0) is called `NoCurrency` here. */
  datatype Currency = NoCurrency | USD | EUR | GBP

  /** `Enum.ToString()` of a currency: the member's declared name. */
  function CurrencyName(c: Currency): string {
    match c
    case NoCurrency => "None"
    case USD => "USD"
    case EUR => "EUR"
    case GBP => "GBP"
  }

  /** The currency whose declared name is exactly `n`, if any: an exact, case-sensitive name lookup. */
  function CurrencyFromName(n: string): (r: Option<Currency>)
    ensures r.Some? ==> CurrencyName(r.value) == n
  {
    if n == "None" then Some(NoCurrency)
    else if n == "USD" then Some(USD)
    else if n == "EUR" then Some(EUR)
    else if n == "GBP" then Some(GBP)
    else None
  }

  /** Every currency name is recognised and contains no space. */
  lemma CurrencyNameRoundTrip(c: Currency)
    ensures CurrencyFromName(CurrencyName(c)) == Some(c)
    ensures ' ' !in CurrencyName(c)
  {
  }
}
