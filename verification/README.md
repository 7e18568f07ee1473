# ShopperGoWebApi domain rules in Dafny

A model of the rules ShopperGoWebApi applies before it writes a company or a
product, with proofs of what those rules accept. The project covers:

- the company validator: the name, the two Italian tax codes (Partita IVA and
  Codice Fiscale), the rule that addresses and contacts exist, duplicate
  addresses and contacts, and the per-address chain with its province "EE"
  and Italy rules;
- the product validator: name, description, price and quantity;
- the `Money` value object, with its `ToString`;
- the reflective text normaliser `Utils.String.ToUpper`;
- the entity graph (Country, City, Address, GeoLocation, Contact, Company,
  ProductCategory, ProductPhoto, Product) and its constructors.

Each C# reference that may be null is an `Option`.

A validation call returns a `Verdict`, which takes one of two forms:

- `Crash`: a predicate dereferenced null, and the C# call throws a
  NullReferenceException.
- `Report(failures)`: the failures in the order FluentValidation reports them.

FluentValidation's default cascade lets every failing check of a rule add one
failure. So a null name is reported twice: once by `NotNull` and once by
`NotEmpty`. Per-item failures carry the item's zero-based position in its
collection.

The files, one module each:

| file | module | what it holds |
|---|---|---|
| `wrappers.dfy` | `Wrappers` | `Option` and `Result` |
| `strings.dfy` | `Strings` | .NET white space, `Trim`, ASCII `ToUpper`, and the two together |
| `enums.dfy` | `Enums` | `ContactType`, `Currency` and currency names |
| `money.dfy` | `ValueObjects` | `Money`: the non-negative invariant, constructors, `ToString` and a reader for it |
| `entities.dfy` | `Entities` | the entity datatypes and every constructor |
| `validation.dfy` | `Validation` | `Verdict`, rule sequencing, and `NotNull().NotEmpty().Length(1, n)` |
| `duplicates.dfy` | `Duplicates` | `GroupBy(key).Where(g => g.Skip(1).Any())` and its permutation invariance |
| `tax_codes.dfy` | `TaxCodes` | the `PI_REGEX` and `CF_REGEX` patterns with their anchors, as `Regex.IsMatch` reads them |
| `company_validator.dfy` | `CompanyValidator` | `CompanyValidator` and what it reports |
| `company_graphs.dfy` | `CompanyGraphs` | the graphs the constructors build, measured against the company validator |
| `product_validator.dfy` | `ProductValidator` | `ProductValidator` and what it reports |
| `string_utils.dfy` | `StringUtils` | `Utils.String.ToUpper` over an object's property list, and its effect on company, product and category |

## Where the code differs from its messages and comments

The model follows the code in each of these cases.

- The name and description rules use `NotEmpty`. On a string, `NotEmpty` also
  rejects white space only, not just "".
- `"^[0-9]{11}$"` accepts eleven digits followed by one line feed. .NET's `$`
  also matches before a final `\n`.
- The Codice Fiscale pattern `"^" + PI_REGEX + "|" + CF_REGEX + "$"` anchors
  each alternative separately. It accepts anything that starts with eleven
  digits, and anything that ends with a 16-character code.
- The existence rule's message says "an address or a contact", but the
  condition requires both.
- The province rule `PV != "EE"` has no message of its own. It rejects every
  foreign address, including those the constructors build.
- The price message says "at least ten cents", but the comparison is strict.
  Exactly 0.10 is rejected.
- Validation runs before normalisation (CompaniesController.cs and
  ProductsController.cs). Every comparison is therefore made on the raw,
  case-sensitive, untrimmed input. A lower-case "ee" province passes the
  rules. It is also stored as "ee": Insert normalises the company and then its
  address list, Update normalises only the company, and neither pass reaches
  the cities inside the addresses.

## Model

Source paths are relative to the repository root.

| member | source | states |
|---|---|---|
| Strings.Trim | ShopperGoWepApi/ShopperGoWepApi/Models/Utils/String.cs:29 | the trimmed string is no longer than the input, has no white space at either end, and is empty exactly when the input is white space only |
| Strings.TrimKeepsMiddle | ShopperGoWepApi/ShopperGoWepApi/Models/Utils/String.cs:29 | the trimmed string is a contiguous middle part of the input, and everything cut off on either side is white space |
| Strings.TrimOfTrimmed | ShopperGoWepApi/ShopperGoWepApi/Models/Utils/String.cs:29 | a string with no white space at either end is its own trim |
| Strings.TrimIdempotent | ShopperGoWepApi/ShopperGoWepApi/Models/Utils/String.cs:29 | trimming twice gives what trimming once gives |
| Strings.Upper | ShopperGoWepApi/ShopperGoWepApi/Models/Utils/String.cs:30 | upper-casing keeps the length and maps each character on its own |
| Strings.UpperKeepsWhiteSpace | ShopperGoWepApi/ShopperGoWepApi/Models/Utils/String.cs:30 | upper-casing a character neither creates nor removes white space |
| Strings.UpperIdempotent | ShopperGoWepApi/ShopperGoWepApi/Models/Utils/String.cs:30 | upper-casing twice gives what upper-casing once gives |
| Strings.NormaliseIdempotent | ShopperGoWepApi/ShopperGoWepApi/Models/Utils/String.cs:29-30 | trim-then-upper is a fixed point: applying it to its own result changes nothing |
| Strings.NormaliseBlank | ShopperGoWepApi/ShopperGoWepApi/Models/Utils/String.cs:29-30 | the normalised string is blank exactly when the raw one is |
| Enums.CurrencyFromName | ShopperGoWepApi/ShopperGoWepApi/Models/Enums/Currency.cs:12-18 | a name is read back only as the currency whose name it is |
| Enums.CurrencyNameRoundTrip | ShopperGoWepApi/ShopperGoWepApi/Models/Enums/Currency.cs:12-18 | every currency's name, including "None", reads back as that currency and holds no space |
| ValueObjects.NewMoney | ShopperGoWepApi/ShopperGoWepApi/Models/ValuesObjects/Money.cs:21-42 | `new Money(c, a)` fails exactly when `a < 0`; otherwise it stores both `a` and `c`, so every Money has a non-negative amount |
| ValueObjects.DefaultMoney | ShopperGoWepApi/ShopperGoWepApi/Models/ValuesObjects/Money.cs:53 | `new Money()` is what `new Money(EUR, 0.00)` succeeds with |
| ValueObjects.NatToDecimal | ShopperGoWepApi/ShopperGoWepApi/Models/ValuesObjects/Money.cs:75 | the integer part is written with at least one digit, digits only, and no leading zero |
| ValueObjects.DecimalRoundTrip | ShopperGoWepApi/ShopperGoWepApi/Models/ValuesObjects/Money.cs:75 | reading the written integer part back gives the integer |
| ValueObjects.Cents | ShopperGoWepApi/ShopperGoWepApi/Models/ValuesObjects/Money.cs:75 | the "0.00" format shows the amount in hundredths, rounded to within half a hundredth |
| ValueObjects.MoneyToString | ShopperGoWepApi/ShopperGoWepApi/Models/ValuesObjects/Money.cs:73-76 | the text is the currency's name, one space, and the amount ending in '.' and exactly two digits |
| ValueObjects.ParseMoney | ShopperGoWepApi/ShopperGoWepApi/Models/ValuesObjects/Money.cs:73-76 | the reader of that text; whatever it reads back has at most two fractional digits, and ParseToString shows it inverts `ToString` |
| ValueObjects.FromCents | ShopperGoWepApi/ShopperGoWepApi/Models/ValuesObjects/Money.cs:75 | a count of hundredths makes a Money worth exactly that many hundredths, with at most two fractional digits |
| ValueObjects.ParseComposed | ShopperGoWepApi/ShopperGoWepApi/Models/ValuesObjects/Money.cs:73-76 | the text of any currency, whole part and two fractional digits reads back as that currency and exactly those hundredths |
| ValueObjects.ParseToString | ShopperGoWepApi/ShopperGoWepApi/Models/ValuesObjects/Money.cs:73-76 | `ToString` is "<currency> <amount to two decimals>": reading it back gives the currency and an amount within half a cent of the original |
| ValueObjects.ParseToStringExact | ShopperGoWepApi/ShopperGoWepApi/Models/ValuesObjects/Money.cs:73-76 | for an amount with at most two decimals, reading `ToString` back gives the same Money |
| Entities.Italy | ShopperGoWepApi/ShopperGoWepApi/Models/Entities/City.cs:61 | the country given to every domestic city has code "IT" and name "ITALIA" |
| Entities.DomesticCity | ShopperGoWepApi/ShopperGoWepApi/Models/Entities/City.cs:57-62 | `new City(name, pv)` keeps name and province and attaches Italy |
| Entities.ForeignCity | ShopperGoWepApi/ShopperGoWepApi/Models/Entities/City.cs:69-74 | `new City(name, country)` keeps name and country and sets the province to "EE" |
| Entities.DomesticAddress | ShopperGoWepApi/ShopperGoWepApi/Models/Entities/Address.cs:70-75 | the four-argument address keeps location and postal code, holds `new City(comune, pv)`, and has no coordinates and identities 0 |
| Entities.ForeignAddress | ShopperGoWepApi/ShopperGoWepApi/Models/Entities/Address.cs:83-90 | the three-argument address has province "EE" and a country with the given code and a null name; postal code and coordinates are null |
| Entities.GeoForeignAddress | ShopperGoWepApi/ShopperGoWepApi/Models/Entities/Address.cs:98-106 | the five-argument address is the three-argument one plus coordinates holding exactly the given latitude and longitude |
| Entities.NewContact | ShopperGoWepApi/ShopperGoWepApi/Models/Entities/Contact.cs:31-51 | a default contact has a null value and display order 100 |
| Entities.EmailContact | ShopperGoWepApi/ShopperGoWepApi/Models/Entities/Contact.cs:58-63 | `new Contact(email)` is an e-mail contact with that value and order 1 |
| Entities.TypedContact | ShopperGoWepApi/ShopperGoWepApi/Models/Entities/Contact.cs:71-76 | `new Contact(type, value, order)` stores its three arguments |
| Entities.CompanyWith | ShopperGoWepApi/ShopperGoWepApi/Models/Entities/Company.cs:68-73 | `new Company(name, address, contact)` has that name, exactly that one address and that one contact, and null tax codes and products |
| Entities.ProductInCategory | ShopperGoWepApi/ShopperGoWepApi/Models/Entities/Product.cs:90-96 | the category-object constructor stores name, quantity, price and the category itself; description and photos stay null and the identities 0 |
| Entities.ProductInNamedCategory | ShopperGoWepApi/ShopperGoWepApi/Models/Entities/Product.cs:75-81 | the category-name constructor is the category-object one with a fresh category of that name |
| Validation.Then | ShopperGoWepApi/ShopperGoWepApi/Models/Validators/CompanyValidator.cs:21-70 | rules run in order: the call throws if any rule throws, and otherwise the failures are those of the first rules followed by those of the later ones |
| Validation.RequiredText | ShopperGoWepApi/ShopperGoWepApi/Models/Validators/CompanyValidator.cs:23 | `NotNull` fails exactly on null, `NotEmpty` on null or white space only, `Length(1, n)` on a present string of length 0 or above n; each failing check appears once; there is no failure exactly when the string is present, not blank and at most n long |
| Duplicates.NoDuplicateGroupsIffDistinct | ShopperGoWepApi/ShopperGoWepApi/Models/Validators/CompanyValidator.cs:101-105 | the grouping finds no group of two or more exactly when all keys are pairwise different |
| Duplicates.NoDuplicateGroupsPermutation | ShopperGoWepApi/ShopperGoWepApi/Models/Validators/CompanyValidator.cs:83-87 | the grouping verdict does not depend on the order of the keys |
| Duplicates.KeysOfPermutation | ShopperGoWepApi/ShopperGoWepApi/Models/Validators/CompanyValidator.cs:84 | reordering a collection reorders its keys: the multiset of keys is unchanged |
| TaxCodes.MatchesPartitaIva | ShopperGoWepApi/ShopperGoWepApi/Models/Validators/CompanyValidator.cs:26 | a matching string is eleven digits, or twelve characters whose eleven digits are followed by a line feed |
| TaxCodes.MatchesCodiceFiscale | ShopperGoWepApi/ShopperGoWepApi/Models/Validators/CompanyValidator.cs:29 | a matching string has at least eleven characters, and every string the Partita IVA rule accepts also passes the Codice Fiscale rule |
| TaxCodes.PartitaIvaShape | ShopperGoWepApi/ShopperGoWepApi/Models/Validators/CompanyValidator.cs:26-27 | the Partita IVA pattern accepts exactly eleven ASCII digits, optionally followed by one line feed |
| TaxCodes.CodiceFiscaleShape | ShopperGoWepApi/ShopperGoWepApi/Models/Validators/CompanyValidator.cs:29-30 | the Codice Fiscale pattern accepts exactly what starts with eleven digits or ends (before an optional final line feed) with a 16-character code |
| TaxCodes.DigitsWithTrailingTextPass | ShopperGoWepApi/ShopperGoWepApi/Models/Validators/CompanyValidator.cs:29 | "12345678901XYZ" passes the Codice Fiscale rule but not the Partita IVA rule |
| TaxCodes.PartitaIvaWithLineFeedPasses | ShopperGoWepApi/ShopperGoWepApi/Models/Validators/CompanyValidator.cs:26 | "12345678901\n" passes the Partita IVA rule; twelve digits do not |
| TaxCodes.PersonalCodePasses | ShopperGoWepApi/ShopperGoWepApi/Models/Validators/CompanyValidator.cs:18 | a personal code passes the Codice Fiscale rule, alone or after arbitrary text |
| CompanyValidator.NameFailures | ShopperGoWepApi/ShopperGoWepApi/Models/Validators/CompanyValidator.cs:23-24 | each failing check of the name rule is reported as a name failure, no failure twice, and nothing else is |
| CompanyValidator.AddressesDuplicateCheck | ShopperGoWepApi/ShopperGoWepApi/Models/Validators/CompanyValidator.cs:96-106 | a null collection passes; the check throws exactly when some address has a null city; otherwise it reports the one duplicate failure exactly when two addresses share a key |
| CompanyValidator.AddressChain | ShopperGoWepApi/ShopperGoWepApi/Models/Validators/CompanyValidator.cs:40-61 | the chain on one address throws exactly when its city, or the city's name, is null |
| CompanyValidator.AddressesChain | ShopperGoWepApi/ShopperGoWepApi/Models/Validators/CompanyValidator.cs:40 | the chain over the collection throws exactly when it throws on some address |
| CompanyValidator.ContactsChain | ShopperGoWepApi/ShopperGoWepApi/Models/Validators/CompanyValidator.cs:67-69 | the per-contact rule reports position i exactly when contact i has a null value |
| CompanyValidator.ContactsDuplicateCheck | ShopperGoWepApi/ShopperGoWepApi/Models/Validators/CompanyValidator.cs:78-88 | a null collection passes; otherwise it reports the one duplicate failure exactly when two contacts share type and value |
| CompanyValidator.ChecksReport | ShopperGoWepApi/ShopperGoWepApi/Models/Validators/CompanyValidator.cs:40-61 | on one address, each failing rule is reported with that address's position, and only those |
| CompanyValidator.AddressesChainReport | ShopperGoWepApi/ShopperGoWepApi/Models/Validators/CompanyValidator.cs:40-61 | over the collection, rule r is reported at position i exactly when address i fails r |
| CompanyValidator.Validate | ShopperGoWepApi/ShopperGoWepApi/Models/Validators/CompanyValidator.cs:21-70 | validation throws exactly when some address has a null city or a city with a null name |
| CompanyValidator.ReportParts | ShopperGoWepApi/ShopperGoWepApi/Models/Validators/CompanyValidator.cs:21-70 | the report is the field rules' failures, then the duplicate-address failure, then the per-address failures, then the contact failures, each part holding only its own kinds |
| CompanyValidator.InParts | ShopperGoWepApi/ShopperGoWepApi/Models/Validators/CompanyValidator.cs:21-70 | a failure is reported exactly when one of the four parts reports it |
| CompanyValidator.ReportOnce | ShopperGoWepApi/ShopperGoWepApi/Models/Validators/CompanyValidator.cs:21-70 | no failure appears twice in a report |
| CompanyValidator.NameRuleReport | ShopperGoWepApi/ShopperGoWepApi/Models/Validators/CompanyValidator.cs:23-24 | the name is reported exactly when it is null, blank or longer than 255 characters; each failing check appears exactly once, every other name failure not at all |
| CompanyValidator.TaxCodeRulesReport | ShopperGoWepApi/ShopperGoWepApi/Models/Validators/CompanyValidator.cs:26-30 | a tax code is reported exactly when it is present and does not match its pattern; null passes |
| CompanyValidator.ExistenceRuleReport | ShopperGoWepApi/ShopperGoWepApi/Models/Validators/CompanyValidator.cs:32-34 | the existence rule is reported unless both addresses and contacts are present and non-empty |
| CompanyValidator.DuplicateAddressesReport | ShopperGoWepApi/ShopperGoWepApi/Models/Validators/CompanyValidator.cs:96-106 | duplicate addresses are reported exactly when two addresses share location, city name and province; a null collection passes |
| CompanyValidator.AddressesDuplicatePermutation | ShopperGoWepApi/ShopperGoWepApi/Models/Validators/CompanyValidator.cs:36-38 | reordering the addresses never changes the duplicate verdict, including whether it throws |
| CompanyValidator.AddressRulesReport | ShopperGoWepApi/ShopperGoWepApi/Models/Validators/CompanyValidator.cs:40-61 | each per-address rule an address fails is reported exactly once, with that address's zero-based position, and every other per-address failure not at all |
| CompanyValidator.DuplicateContactsReport | ShopperGoWepApi/ShopperGoWepApi/Models/Validators/CompanyValidator.cs:78-88 | duplicate contacts are reported exactly when two contacts share type and value; a null collection passes |
| CompanyValidator.ContactsDuplicatePermutation | ShopperGoWepApi/ShopperGoWepApi/Models/Validators/CompanyValidator.cs:63-65 | reordering the contacts never changes the duplicate verdict |
| CompanyValidator.ContactValuesReport | ShopperGoWepApi/ShopperGoWepApi/Models/Validators/CompanyValidator.cs:67-69 | each contact with a null value is reported exactly once, with its position, and no other position is |
| CompanyValidator.DomesticRuleCases | ShopperGoWepApi/ShopperGoWepApi/Models/Validators/CompanyValidator.cs:47-50 | a missing province and province "EE" always fail the domestic rule; any other province passes it exactly when there is no country, or its code is not "IT", or its name is "ITALIA" |
| CompanyValidator.ForeignRulesCases | ShopperGoWepApi/ShopperGoWepApi/Models/Validators/CompanyValidator.cs:51-61 | outside province "EE" both country rules pass; in it they need a country with a non-blank name, and a code of one to three characters once trimmed |
| CompanyValidator.ForeignAddressRejected | ShopperGoWepApi/ShopperGoWepApi/Models/Validators/CompanyValidator.cs:47 | a company with an address in province "EE" is never accepted, and that address is reported under the domestic rule with its position |
| CompanyValidator.LowerCaseProvinceAccepted | ShopperGoWepApi/ShopperGoWepApi/Models/Validators/CompanyValidator.cs:47 | province "ee" passes every per-address rule, although its normalised form is "EE", the province the domestic rule rejects |
| CompanyValidator.RulesHoldAccepted | ShopperGoWepApi/ShopperGoWepApi/Models/Validators/CompanyValidator.cs:21-70 | a company on which nothing throws and every rule holds gets an empty report |
| CompanyValidator.AcceptedRulesHold | ShopperGoWepApi/ShopperGoWepApi/Models/Validators/CompanyValidator.cs:21-70 | a company with an empty report passes every rule, and nothing on it throws |
| CompanyValidator.ValidateAccepts | ShopperGoWepApi/ShopperGoWepApi/Models/Validators/CompanyValidator.cs:21-70 | the validator accepts a company exactly when nothing throws and every rule holds |
| CompanyGraphs.DomesticCityPassesDomesticRule | ShopperGoWepApi/ShopperGoWepApi/Models/Entities/City.cs:57-62 | a domestic city with a province other than "EE" passes the domestic rule |
| CompanyGraphs.ForeignCityFailsDomesticRule | ShopperGoWepApi/ShopperGoWepApi/Models/Entities/City.cs:69-74 | a foreign city always fails the domestic rule |
| CompanyGraphs.ForeignAddressFailsCountryRules | ShopperGoWepApi/ShopperGoWepApi/Models/Entities/Address.cs:83-106 | the three- and five-argument addresses fail the country-name rule and the domestic rule |
| CompanyGraphs.CompanyWithForeignAddressRejected | ShopperGoWepApi/ShopperGoWepApi/Models/Entities/Address.cs:83-90 | a company built around a foreign address is never accepted |
| CompanyGraphs.CompanyWithReport | ShopperGoWepApi/ShopperGoWepApi/Models/Entities/Company.cs:68-73 | a one-address, one-contact company passes the tax-code, existence and duplicate rules; it fails at most its name, its address's rules at position 0 and its contact's value at position 0 |
| CompanyGraphs.CompanyWithAccepted | ShopperGoWepApi/ShopperGoWepApi/Models/Entities/Company.cs:68-73 | such a company is accepted exactly when its name is valid, its address passes every rule without throwing, and its contact has a value |
| CompanyGraphs.NewCompanyReport | ShopperGoWepApi/ShopperGoWepApi/Models/Entities/Company.cs:51-54 | a default company is reported for its null name (twice) and for the missing collections, and for nothing else |
| CompanyGraphs.NewContactReported | ShopperGoWepApi/ShopperGoWepApi/Models/Entities/Contact.cs:48-51 | a default contact is reported at its position for its null value |
| CompanyGraphs.AcmeAccepted | ShopperGoWepApi/ShopperGoWepApi/Models/Validators/CompanyValidator.cs:21-70 | "Acme Srl" at "Via Roma 1", Roma (RM), with an e-mail contact, is accepted |
| CompanyGraphs.RepeatedAddressReported | ShopperGoWepApi/ShopperGoWepApi/Models/Validators/CompanyValidator.cs:96-106 | a company listing the same address twice is reported for duplicate addresses and rejected |
| CompanyGraphs.LowerCaseProvinceStoredAsEntered | ShopperGoWepApi/ShopperGoWepApi/Controllers/CompaniesController.cs:98-99 | after the company pass and the pass over its address list, the province "ee" is still "ee": neither pass reaches a city |
| ProductValidator.NameFailures | ShopperGoWepApi/ShopperGoWepApi/Models/Validators/ProductValidator.cs:20-21 | each failing check of the name rule is reported as a name failure, no failure twice, and nothing else is |
| ProductValidator.DescriptionFailures | ShopperGoWepApi/ShopperGoWepApi/Models/Validators/ProductValidator.cs:23-24 | each failing check of the description rule (at most 1024 characters) is reported as a description failure, no failure twice, and nothing else is |
| ProductValidator.PriceRule | ShopperGoWepApi/ShopperGoWepApi/Models/Validators/ProductValidator.cs:26-29 | the rule throws exactly when the price is null; otherwise it reports the one price failure exactly when the amount is at most 0.10 |
| ProductValidator.Validate | ShopperGoWepApi/ShopperGoWepApi/Models/Validators/ProductValidator.cs:18-36 | validation throws exactly when the price is null, because the price predicate dereferences it |
| ProductValidator.ValidateReport | ShopperGoWepApi/ShopperGoWepApi/Models/Validators/ProductValidator.cs:20-34 | name and description faults are reported exactly as their checks fail; the price exactly when it is at most 0.10; the quantity exactly when it is below 10; no failure appears twice |
| ProductValidator.ValidateAccepts | ShopperGoWepApi/ShopperGoWepApi/Models/Validators/ProductValidator.cs:18-36 | a product is accepted exactly when its name and description are valid, its price is present and above 0.10, and its quantity is at least 10 |
| ProductValidator.TenCentsRejected | ShopperGoWepApi/ShopperGoWepApi/Models/Validators/ProductValidator.cs:28-29 | a price of exactly 0.10 is reported and the product rejected |
| ProductValidator.OnlyPriceFails | ShopperGoWepApi/ShopperGoWepApi/Models/Validators/ProductValidator.cs:20-34 | a product that fails only the price check gets exactly one failure, the price failure |
| ProductValidator.UnconstrainedFields | ShopperGoWepApi/ShopperGoWepApi/Models/Validators/ProductValidator.cs:18-36 | category, photos, identities and the price's currency never change the verdict |
| ProductValidator.ConstructedProductRejected | ShopperGoWepApi/ShopperGoWepApi/Models/Entities/Product.cs:75-96 | neither four-argument constructor sets a description, so its product is reported for a null description and rejected |
| ProductValidator.CheapWidgetRejected | ShopperGoWepApi/ShopperGoWepApi/Models/Validators/ProductValidator.cs:26-29 | a "Widget" described "A widget", 50 pieces at EUR 0.05, gets exactly the price failure |
| StringUtils.ToUpper | ShopperGoWepApi/ShopperGoWepApi/Models/Utils/String.cs:15-35 | null is left alone; each writable string property holding a value becomes its trimmed, upper-cased form; every other property keeps name, writability and value |
| StringUtils.Normalised | ShopperGoWepApi/ShopperGoWepApi/Models/Utils/String.cs:23-33 | the pass keeps every property's name and setter; an untouched property keeps its value; a touched one keeps a non-null string no longer than before |
| StringUtils.NullTextKept | ShopperGoWepApi/ShopperGoWepApi/Models/Utils/String.cs:26-27 | a null string property stays null and never becomes "" |
| StringUtils.NormalisedIdempotent | ShopperGoWepApi/ShopperGoWepApi/Models/Utils/String.cs:23-33 | running the pass on its own result changes nothing |
| StringUtils.NoTextUnchanged | ShopperGoWepApi/ShopperGoWepApi/Models/Utils/String.cs:24 | an object without string properties is left as it was |
| StringUtils.NormaliseShape | ShopperGoWepApi/ShopperGoWepApi/Models/Utils/String.cs:29-30 | a normalised string is never longer than the raw one and is blank exactly when the raw one is |
| StringUtils.NormaliseCompany | ShopperGoWepApi/ShopperGoWepApi/Models/Utils/String.cs:20-24 | normalising a company leaves its identity and its address, contact and product collections untouched |
| StringUtils.CompanyPass | ShopperGoWepApi/ShopperGoWepApi/Models/Utils/String.cs:20-33 | the pass over a company's properties produces exactly the properties of the normalised company |
| StringUtils.NormaliseProduct | ShopperGoWepApi/ShopperGoWepApi/Models/Utils/String.cs:20-24 | normalising a product leaves its category object, price, photos, quantity and identities untouched |
| StringUtils.ProductPass | ShopperGoWepApi/ShopperGoWepApi/Models/Utils/String.cs:20-33 | the pass over a product's properties produces exactly the properties of the normalised product |
| StringUtils.NormaliseCategory | ShopperGoWepApi/ShopperGoWepApi/Controllers/ProductsController.cs:107 | normalising a product's category keeps its identity, and a null name or description stays null while a present one stays present |
| StringUtils.CategoryPass | ShopperGoWepApi/ShopperGoWepApi/Models/Utils/String.cs:20-33 | the pass over a category's properties produces exactly the properties of the normalised category |
| StringUtils.ListPassChangesNothing | ShopperGoWepApi/ShopperGoWepApi/Controllers/CompaniesController.cs:99 | passing a list of addresses to the normaliser changes nothing: a list exposes its capacity, its count and an indexer, none of them a string |
| StringUtils.NormaliseCompanyIdempotent | ShopperGoWepApi/ShopperGoWepApi/Models/Utils/String.cs:29-32 | normalising a company twice gives what normalising it once gives |
| StringUtils.NormaliseProductIdempotent | ShopperGoWepApi/ShopperGoWepApi/Models/Utils/String.cs:29-32 | normalising a product twice gives what normalising it once gives |

## Left out

- The controllers, the repository and the services. They only route HTTP calls and wrap EF Core. Their one relevant fact is the call order: validate, then normalise.
- The database context and its mapping. These are constraints enforced by the database, including a decimal-to-float conversion.
- Program startup and the API-key middleware. This is hosting and I/O.
- The exception classes and the database error codes. They are plain carriers with no logic.
- FluentValidation's message texts and property names. A failure is a tag, with the item's position where the source interpolates `{CollectionIndex}`.
- Culture-sensitive behaviour. Upper-casing maps ASCII letters only. `Money.ToString` uses '.' as the decimal separator.
- The regex engine in general. Only the two fixed patterns are modelled, as predicates.
- String lengths. They are counted in characters, not UTF-16 code units. The two differ only outside the Basic Multilingual Plane.
- `int` and `decimal` widths. Quantities, identities and amounts are unbounded. The 28-digit limit of `decimal` and 32-bit overflow are not modelled.
- Null elements inside a collection, null constructor arguments of object type, and enum values outside their declared members. The datatypes cannot express them.
- Navigation properties that point back to an owner: Address.Company, City.Addresses, Country.Cities, GeoLocation.Address, ProductCategory.Products, Product.Company, Contact.Company. The validators never read them. The normaliser skips them because they are not strings.
- StringUtils.NormaliseCompany: its contract names only what stays unchanged. `CompanyPass` states what the normalised strings become.
- StringUtils.NormaliseProduct: its contract names only what stays unchanged. `ProductPass` states what the normalised strings become.
