/**
 * The company validator: the rules a candidate company graph must pass
 * before it may be written. Every comparison is ordinal and case-sensitive
 * on the raw input, because the controllers validate before they normalise.
 */
module CompanyValidator {
  import opened Wrappers
  import opened Strings
  import opened Enums
  import opened Entities
  import opened Validation
  import opened Duplicates
  import opened TaxCodes

  /** Upper bound of `Length(1, 255)` on the company name. */
  const MaxNameLength: nat := 255

  /** The six checks of the per-address `RuleForEach` chain, in declaration order. */
  datatype AddressRule =
    | LocationGiven
    | CityGiven
    | ProvinceGiven
    | DomesticCountry
    | CountryNameGiven
    | CountryCodeGiven

  /** One failure of a company; per-item failures carry the zero-based position in their collection. */
  datatype CompanyFailure =
    | NameInvalid(fault: TextFault)
    | PartitaIvaInvalid
    | CodiceFiscaleInvalid
    | NoAddressesOrContacts
    | DuplicateAddresses
    | AddressInvalid(rule: AddressRule, index: nat)
    | DuplicateContacts
    | ContactValueMissing(index: nat)

  // ---------------------------------------------------------------
  // Field rules
  // ---------------------------------------------------------------

  /** The name rule's faults, each reported as a name failure. */
  function NameFailures(name: Option<string>): (r: seq<CompanyFailure>)
    ensures forall f | f in r :: f.NameInvalid?
    ensures forall fault :: NameInvalid(fault) in r <==> fault in RequiredText(name, MaxNameLength)
    ensures Distinct(r)
  {
    Tagged(RequiredText(name, MaxNameLength), fault => NameInvalid(fault))
  }

  /** `Matches` passes on null. */
  predicate PartitaIvaRule(partitaIva: Option<string>) {
    partitaIva.None? || MatchesPartitaIva(partitaIva.value)
  }

  predicate CodiceFiscaleRule(codiceFiscale: Option<string>) {
    codiceFiscale.None? || MatchesCodiceFiscale(codiceFiscale.value)
  }

  /** The existence rule: both collections present and non-empty, although its message says "or". */
  predicate HasAddressesAndContacts(c: Company) {
    && c.addresses.Some? && |c.addresses.value| > 0
    && c.contacts.Some? && |c.contacts.value| > 0
  }

  function FieldFailures(c: Company): seq<CompanyFailure> {
    NameFailures(c.name)
    + (if PartitaIvaRule(c.partitaIva) then [] else [PartitaIvaInvalid])
    + (if CodiceFiscaleRule(c.codiceFiscale) then [] else [CodiceFiscaleInvalid])
    + (if HasAddressesAndContacts(c) then [] else [NoAddressesOrContacts])
  }

  // ---------------------------------------------------------------
  // Addresses
  // ---------------------------------------------------------------

  /** The anonymous grouping key `{ Location, City.Name, City.PV }`. */
  datatype AddressKey = AddressKey(location: Option<string>, cityName: Option<string>, pv: Option<string>)

  /** The grouping key of an address; only consulted when its city is present (otherwise the grouping throws). */
  function KeyOfAddress(a: Address): AddressKey {
    match a.city
    case Some(city) => AddressKey(a.location, city.name, city.pv)
    case None => AddressKey(a.location, None, None)
  }

  /**
   * `IsNotAddressesDuplicated`: null passes; a null city makes the key
   * selector throw; otherwise one failure when two addresses share a key.
   */
  function AddressesDuplicateCheck(addresses: Option<seq<Address>>): (v: Verdict<CompanyFailure>)
    ensures v.Crash? <==> addresses.Some? && exists k | 0 <= k < |addresses.value| :: addresses.value[k].city.None?
    ensures v.Report? ==> v.failures == [] || v.failures == [DuplicateAddresses]
    ensures v.Report? ==> (v.failures == [] <==> addresses.None? || Distinct(KeysOf(addresses.value, KeyOfAddress)))
  {
    match addresses
    case None => Report([])
    case Some(xs) =>
      NoDuplicateGroupsIffDistinct(KeysOf(xs, KeyOfAddress));
      if exists k | 0 <= k < |xs| :: xs[k].city.None? then Crash
      else if NoDuplicateGroups(KeysOf(xs, KeyOfAddress)) then Report([])
      else Report([DuplicateAddresses])
  }

  /** The per-address chain dereferences `City`, and `City.Name` to trim it. */
  predicate ChainCrashes(a: Address) {
    a.city.None? || a.city.value.name.None?
  }

  /** The domestic rule (it has no message of its own): a non-"EE" province, and an "IT" country only when named "ITALIA". */
  predicate DomesticRule(city: City) {
    && city.pv.Some?
    && city.pv != Some(ForeignProvince)
    && (|| city.country.None?
        || city.country.value.code != Some(DomesticCode)
        || city.country.value.name == Some(DomesticName))
  }

  /** A foreign city needs a country with a non-blank name. */
  predicate CountryNameRule(city: City) {
    || city.pv != Some(ForeignProvince)
    || (&& city.country.Some?
        && city.country.value.name.Some?
        && |Trim(city.country.value.name.value)| > 0)
  }

  /** A foreign city needs a country whose trimmed code has one to three characters. */
  predicate CountryCodeRule(city: City) {
    || city.pv != Some(ForeignProvince)
    || (&& city.country.Some?
        && city.country.value.code.Some?
        && 0 < |Trim(city.country.value.code.value)| < 4)
  }

  /** Whether `rule` accepts address `a`; meaningful when the chain does not crash on `a`. */
  predicate RuleHolds(rule: AddressRule, a: Address) {
    match rule
    case LocationGiven => a.location.Some? && |Trim(a.location.value)| > 0
    case CityGiven => a.city.Some? && a.city.value.name.Some? && |Trim(a.city.value.name.value)| > 0
    case ProvinceGiven => a.city.Some? && a.city.value.pv.Some?
    case DomesticCountry => a.city.Some? && DomesticRule(a.city.value)
    case CountryNameGiven => a.city.Some? && CountryNameRule(a.city.value)
    case CountryCodeGiven => a.city.Some? && CountryCodeRule(a.city.value)
  }

  /** The rules of the chain, in the order they run. */
  const AddressRules: seq<AddressRule> :=
    [LocationGiven, CityGiven, ProvinceGiven, DomesticCountry, CountryNameGiven, CountryCodeGiven]

  /** Position of `rule` in the chain. */
  function RuleIndex(rule: AddressRule): (k: nat)
    ensures k < |AddressRules| && AddressRules[k] == rule
  {
    match rule
    case LocationGiven => 0
    case CityGiven => 1
    case ProvinceGiven => 2
    case DomesticCountry => 3
    case CountryNameGiven => 4
    case CountryCodeGiven => 5
  }

  /** The failures `rules` report on address `a`, which is at position `index`. */
  function Checks(rules: seq<AddressRule>, a: Address, index: nat): seq<CompanyFailure> {
    if |rules| == 0 then []
    else (if RuleHolds(rules[0], a) then [] else [AddressInvalid(rules[0], index)]) + Checks(rules[1..], a, index)
  }

  /** The whole chain on one address, which is at position `index`. */
  function AddressChain(a: Address, index: nat): (v: Verdict<CompanyFailure>)
    ensures v.Crash? <==> ChainCrashes(a)
  {
    if ChainCrashes(a) then Crash else Report(Checks(AddressRules, a, index))
  }

  /** `RuleForEach(company => company.Addresses)` over `xs`, whose first element is at position `start`. */
  function AddressesChain(xs: seq<Address>, start: nat): (v: Verdict<CompanyFailure>)
    ensures v.Crash? <==> exists k | 0 <= k < |xs| :: ChainCrashes(xs[k])
    decreases |xs|
  {
    if |xs| == 0 then Report([])
    else
      var v := Then(AddressChain(xs[0], start), AddressesChain(xs[1..], start + 1));
      assert v.Crash? ==> exists k | 0 <= k < |xs| :: ChainCrashes(xs[k]) by {
        if !ChainCrashes(xs[0]) && v.Crash? {
          var k :| 0 <= k < |xs| - 1 && ChainCrashes(xs[1..][k]);
          assert ChainCrashes(xs[k + 1]);
        }
      }
      v
  }

  // ---------------------------------------------------------------
  // Contacts
  // ---------------------------------------------------------------

  /** The anonymous grouping key `{ Type, Value }`. */
  datatype ContactKey = ContactKey(contactType: ContactType, value: Option<string>)

  function KeyOfContact(c: Contact): ContactKey {
    ContactKey(c.contactType, c.value)
  }

  /** `IsNotContactsDuplicated`: null passes; otherwise one failure when two contacts share a key. */
  function ContactsDuplicateCheck(contacts: Option<seq<Contact>>): (r: seq<CompanyFailure>)
    ensures r == [] || r == [DuplicateContacts]
    ensures r == [] <==> contacts.None? || Distinct(KeysOf(contacts.value, KeyOfContact))
  {
    match contacts
    case None => []
    case Some(xs) =>
      NoDuplicateGroupsIffDistinct(KeysOf(xs, KeyOfContact));
      if NoDuplicateGroups(KeysOf(xs, KeyOfContact)) then [] else [DuplicateContacts]
  }

  /** `RuleForEach(company => company.Contacts)`: one failure per contact without a value. */
  function ContactsChain(xs: seq<Contact>, start: nat): (r: seq<CompanyFailure>)
    ensures forall f :: f in r <==> f.ContactValueMissing? && start <= f.index < start + |xs| && xs[f.index - start].value.None?
    decreases |xs|
  {
    if |xs| == 0 then []
    else (if xs[0].value.None? then [ContactValueMissing(start)] else []) + ContactsChain(xs[1..], start + 1)
  }

  // ---------------------------------------------------------------
  // The validator
  // ---------------------------------------------------------------

  /** The per-address chain, skipped when there is no collection. */
  function AddressRulesOf(c: Company): Verdict<CompanyFailure> {
    if c.addresses.Some? then AddressesChain(c.addresses.value, 0) else Report([])
  }

  /** The two contact rules: duplicates, then one check per contact. */
  function ContactRulesOf(c: Company): seq<CompanyFailure> {
    ContactsDuplicateCheck(c.contacts) + (if c.contacts.Some? then ContactsChain(c.contacts.value, 0) else [])
  }

  /** No address makes the validator dereference a null city or city name. */
  predicate ChainSafe(c: Company) {
    c.addresses.Some? ==> forall k | 0 <= k < |c.addresses.value| :: !ChainCrashes(c.addresses.value[k])
  }

  /**
   * `new CompanyValidator().Validate(company)`: every rule, in declaration
   * order. It throws exactly when some address has no city, or a city
   * without a name.
   */
  function Validate(c: Company): (v: Verdict<CompanyFailure>)
    ensures v.Crash? <==> !ChainSafe(c)
  {
    Then(Report(FieldFailures(c)), Then(AddressesDuplicateCheck(c.addresses), Then(AddressRulesOf(c), Report(ContactRulesOf(c)))))
  }

  // ---------------------------------------------------------------
  // What the validator reports
  // ---------------------------------------------------------------

  /** The failures of one address, in rule order. */
  lemma {:induction false} ChecksReport(rules: seq<AddressRule>, a: Address, index: nat)
    ensures forall f | f in Checks(rules, a, index) :: f.AddressInvalid?
    ensures forall rule, i: nat :: AddressInvalid(rule, i) in Checks(rules, a, index) <==> i == index && rule in rules && !RuleHolds(rule, a)
  {
    if |rules| > 0 {
      ChecksReport(rules[1..], a, index);
      assert rules == [rules[0]] + rules[1..];
    }
  }

  lemma AllRulesListed()
    ensures forall rule :: rule in AddressRules
  {
    forall rule: AddressRule ensures rule in AddressRules {
      assert AddressRules[RuleIndex(rule)] == rule;
    }
  }

  /** The chain reports per-address failures only. */
  lemma {:induction false} AddressesChainKinds(xs: seq<Address>, start: nat)
    requires AddressesChain(xs, start).Report?
    ensures forall f | f in AddressesChain(xs, start).failures :: f.AddressInvalid?
  {
    if |xs| > 0 {
      AddressesChainKinds(xs[1..], start + 1);
      ChecksReport(AddressRules, xs[0], start);
    }
  }

  /** On one address, rule `rule` is reported at position `i` exactly when `i` is its position and it fails the rule. */
  lemma AddressChainMember(a: Address, index: nat, rule: AddressRule, i: nat)
    requires AddressChain(a, index).Report?
    ensures AddressInvalid(rule, i) in AddressChain(a, index).failures <==> i == index && !RuleHolds(rule, a)
  {
    ChecksReport(AddressRules, a, index);
    assert AddressRules[RuleIndex(rule)] == rule;
  }

  /** Rule `rule` is reported at position `i` exactly when the address there fails it. */
  lemma {:induction false} AddressesChainMember(xs: seq<Address>, start: nat, rule: AddressRule, i: nat)
    requires AddressesChain(xs, start).Report?
    ensures AddressInvalid(rule, i) in AddressesChain(xs, start).failures <==>
      start <= i < start + |xs| && !RuleHolds(rule, xs[i - start])
  {
    if |xs| > 0 {
      var first := AddressChain(xs[0], start);
      var tail := AddressesChain(xs[1..], start + 1);
      assert AddressesChain(xs, start) == Then(first, tail);
      assert first.Report? && tail.Report?;
      AddressesChainMember(xs[1..], start + 1, rule, i);
      AddressChainMember(xs[0], start, rule, i);
      assert AddressesChain(xs, start).failures == first.failures + tail.failures;
      if i == start {
        assert AddressInvalid(rule, i) !in tail.failures;
      } else {
        assert AddressInvalid(rule, i) !in first.failures;
        if start < i < start + |xs| {
          assert xs[i - start] == xs[1..][i - (start + 1)];
        }
      }
    }
  }

  /** The chain reports every failing rule of every address, tagged with the address's position. */
  lemma AddressesChainReport(xs: seq<Address>, start: nat)
    requires AddressesChain(xs, start).Report?
    ensures forall f | f in AddressesChain(xs, start).failures :: f.AddressInvalid?
    ensures forall rule, i: nat :: AddressInvalid(rule, i) in AddressesChain(xs, start).failures <==>
      start <= i < start + |xs| && !RuleHolds(rule, xs[i - start])
  {
    AddressesChainKinds(xs, start);
    forall rule, i: nat
      ensures AddressInvalid(rule, i) in AddressesChain(xs, start).failures <==>
        start <= i < start + |xs| && !RuleHolds(rule, xs[i - start])
    {
      AddressesChainMember(xs, start, rule, i);
    }
  }

  /** A chain of distinct rules reports each failing rule once. */
  lemma {:induction false} ChecksDistinct(rules: seq<AddressRule>, a: Address, index: nat)
    requires Distinct(rules)
    ensures Distinct(Checks(rules, a, index))
  {
    if |rules| > 0 {
      ChecksDistinct(rules[1..], a, index);
      ChecksReport(rules[1..], a, index);
      assert rules[0] !in rules[1..];
      DistinctConcat(if RuleHolds(rules[0], a) then [] else [AddressInvalid(rules[0], index)], Checks(rules[1..], a, index));
    }
  }

  /** The chain never reports the same rule for the same address twice. */
  lemma {:induction false} AddressesChainDistinct(xs: seq<Address>, start: nat)
    requires AddressesChain(xs, start).Report?
    ensures Distinct(AddressesChain(xs, start).failures)
    ensures forall f | f in AddressesChain(xs, start).failures :: f.AddressInvalid? && start <= f.index
  {
    if |xs| > 0 {
      var head := Checks(AddressRules, xs[0], start);
      var tail := AddressesChain(xs[1..], start + 1);
      AddressesChainDistinct(xs[1..], start + 1);
      ChecksReport(AddressRules, xs[0], start);
      assert Distinct(AddressRules);
      ChecksDistinct(AddressRules, xs[0], start);
      assert forall f | f in head :: f.AddressInvalid? && f.index == start by {
        forall f | f in head ensures f.AddressInvalid? && f.index == start {
          assert AddressInvalid(f.rule, f.index) in head;
        }
      }
      DistinctConcat(head, tail.failures);
    }
  }

  /** The per-contact rule reports each contact at most once. */
  lemma {:induction false} ContactsChainDistinct(xs: seq<Contact>, start: nat)
    ensures Distinct(ContactsChain(xs, start))
  {
    if |xs| > 0 {
      ContactsChainDistinct(xs[1..], start + 1);
      DistinctConcat(if xs[0].value.None? then [ContactValueMissing(start)] else [], ContactsChain(xs[1..], start + 1));
    }
  }

  /** Which field rule reports which failure. */
  lemma FieldRulesReport(c: Company)
    ensures forall f | f in FieldFailures(c) ::
      f.NameInvalid? || f.PartitaIvaInvalid? || f.CodiceFiscaleInvalid? || f.NoAddressesOrContacts?
    ensures forall fault :: NameInvalid(fault) in FieldFailures(c) <==> fault in RequiredText(c.name, MaxNameLength)
    ensures PartitaIvaInvalid in FieldFailures(c) <==> !PartitaIvaRule(c.partitaIva)
    ensures CodiceFiscaleInvalid in FieldFailures(c) <==> !CodiceFiscaleRule(c.codiceFiscale)
    ensures NoAddressesOrContacts in FieldFailures(c) <==> !HasAddressesAndContacts(c)
  {
    var names := NameFailures(c.name);
    assert PartitaIvaInvalid !in names && CodiceFiscaleInvalid !in names && NoAddressesOrContacts !in names;
  }

  /** Which contact rule reports which failure. */
  lemma ContactRulesReport(c: Company)
    ensures forall f | f in ContactRulesOf(c) :: f.DuplicateContacts? || f.ContactValueMissing?
    ensures DuplicateContacts in ContactRulesOf(c) <==> ContactsDuplicateCheck(c.contacts) != []
    ensures forall i: nat :: ContactValueMissing(i) in ContactRulesOf(c) <==>
      c.contacts.Some? && i < |c.contacts.value| && c.contacts.value[i].value.None?
  {
  }

  /** Which part of the validator reports which kind of failure. */
  lemma ReportParts(c: Company)
    requires ChainSafe(c)
    ensures Validate(c).Report?
    ensures Validate(c).failures ==
      FieldFailures(c) + (AddressesDuplicateCheck(c.addresses).failures + (AddressRulesOf(c).failures + ContactRulesOf(c)))
    ensures forall f | f in FieldFailures(c) :: f.NameInvalid? || f.PartitaIvaInvalid? || f.CodiceFiscaleInvalid? || f.NoAddressesOrContacts?
    ensures forall f | f in AddressesDuplicateCheck(c.addresses).failures :: f.DuplicateAddresses?
    ensures forall f | f in AddressRulesOf(c).failures :: f.AddressInvalid?
    ensures forall f | f in ContactRulesOf(c) :: f.DuplicateContacts? || f.ContactValueMissing?
  {
    FieldRulesReport(c);
    ContactRulesReport(c);
    AddressRulesKinds(c);
    var duplicates := AddressesDuplicateCheck(c.addresses);
    assert duplicates.Report? by {
      if c.addresses.Some? {
        assert forall k | 0 <= k < |c.addresses.value| :: c.addresses.value[k].city.Some?;
      }
    }
    var rest := Then(AddressRulesOf(c), Report(ContactRulesOf(c)));
    assert rest == Report(AddressRulesOf(c).failures + ContactRulesOf(c));
    assert Then(duplicates, rest) == Report(duplicates.failures + rest.failures);
  }

  /** The per-address chain reports per-address failures only. */
  lemma AddressRulesKinds(c: Company)
    requires ChainSafe(c)
    ensures AddressRulesOf(c).Report?
    ensures forall f | f in AddressRulesOf(c).failures :: f.AddressInvalid?
  {
    if c.addresses.Some? {
      AddressesChainReport(c.addresses.value, 0);
    }
  }

  /** Each field rule reports each of its failures once. */
  lemma FieldFailuresDistinct(c: Company)
    ensures Distinct(FieldFailures(c))
  {
    var names := NameFailures(c.name);
    var pi: seq<CompanyFailure> := if PartitaIvaRule(c.partitaIva) then [] else [PartitaIvaInvalid];
    var cf: seq<CompanyFailure> := if CodiceFiscaleRule(c.codiceFiscale) then [] else [CodiceFiscaleInvalid];
    var ex: seq<CompanyFailure> := if HasAddressesAndContacts(c) then [] else [NoAddressesOrContacts];
    DistinctConcat(names, pi);
    DistinctConcat(names + pi, cf);
    DistinctConcat(names + pi + cf, ex);
  }

  /** Both contact rules together report each failure once. */
  lemma ContactRulesDistinct(c: Company)
    ensures Distinct(ContactRulesOf(c))
  {
    if c.contacts.Some? {
      ContactsChainDistinct(c.contacts.value, 0);
      DistinctConcat(ContactsDuplicateCheck(c.contacts), ContactsChain(c.contacts.value, 0));
    }
  }

  /** No failure appears twice in a report. */
  lemma ReportOnce(c: Company)
    requires ChainSafe(c)
    ensures Validate(c).Report?
    ensures Distinct(Validate(c).failures)
  {
    ReportParts(c);
    FieldFailuresDistinct(c);
    ContactRulesDistinct(c);
    if c.addresses.Some? {
      AddressesChainDistinct(c.addresses.value, 0);
    }
    PartsDistinct(FieldFailures(c), AddressesDuplicateCheck(c.addresses).failures, AddressRulesOf(c).failures, ContactRulesOf(c));
  }

  /** Four parts that report different kinds of failure, each without repeats, join without repeats. */
  lemma PartsDistinct(fields: seq<CompanyFailure>, duplicates: seq<CompanyFailure>, addresses: seq<CompanyFailure>, contacts: seq<CompanyFailure>)
    requires Distinct(fields) && Distinct(duplicates) && Distinct(addresses) && Distinct(contacts)
    requires forall f | f in fields :: f.NameInvalid? || f.PartitaIvaInvalid? || f.CodiceFiscaleInvalid? || f.NoAddressesOrContacts?
    requires forall f | f in duplicates :: f.DuplicateAddresses?
    requires forall f | f in addresses :: f.AddressInvalid?
    requires forall f | f in contacts :: f.DuplicateContacts? || f.ContactValueMissing?
    ensures Distinct(fields + (duplicates + (addresses + contacts)))
  {
    DistinctConcat(addresses, contacts);
    DistinctConcat(duplicates, addresses + contacts);
    DistinctConcat(fields, duplicates + (addresses + contacts));
  }

  /** A failure is in a report once or not at all. */
  lemma ReportedOnce(c: Company, f: CompanyFailure)
    requires ChainSafe(c)
    ensures Validate(c).Report?
    ensures multiset(Validate(c).failures)[f] == if f in Validate(c).failures then 1 else 0
  {
    ReportOnce(c);
    DistinctOnce(Validate(c).failures, f);
  }

  /** A failure is reported exactly when one of the four parts reports it. */
  lemma InParts(c: Company, f: CompanyFailure)
    requires ChainSafe(c)
    ensures Validate(c).Report?
    ensures f in Validate(c).failures <==>
      || f in FieldFailures(c)
      || f in AddressesDuplicateCheck(c.addresses).failures
      || f in AddressRulesOf(c).failures
      || f in ContactRulesOf(c)
  {
  }

  /** A failure of a field rule is reported exactly when that rule reports it. */
  lemma InFieldRules(c: Company, f: CompanyFailure)
    requires ChainSafe(c)
    requires f.NameInvalid? || f.PartitaIvaInvalid? || f.CodiceFiscaleInvalid? || f.NoAddressesOrContacts?
    ensures f in Validate(c).failures <==> f in FieldFailures(c)
  {
    ReportParts(c);
    InParts(c, f);
  }

  /** Only the address duplicate check reports duplicate addresses. */
  lemma InDuplicateAddresses(c: Company)
    requires ChainSafe(c)
    ensures DuplicateAddresses in Validate(c).failures <==> AddressesDuplicateCheck(c.addresses) == Report([DuplicateAddresses])
  {
    ReportParts(c);
    InParts(c, DuplicateAddresses);
  }

  /** Only the contact duplicate check reports duplicate contacts. */
  lemma InDuplicateContacts(c: Company)
    requires ChainSafe(c)
    ensures DuplicateContacts in Validate(c).failures <==> ContactsDuplicateCheck(c.contacts) == [DuplicateContacts]
  {
    ReportParts(c);
    ContactRulesReport(c);
    InParts(c, DuplicateContacts);
  }

  /** The name fails exactly when null, blank or longer than 255 characters; each failing check is reported. */
  lemma NameRuleReport(c: Company)
    requires ChainSafe(c)
    ensures forall fault :: NameInvalid(fault) in Validate(c).failures <==> fault in RequiredText(c.name, MaxNameLength)
    ensures (forall fault :: NameInvalid(fault) !in Validate(c).failures) <==>
      c.name.Some? && !IsBlank(c.name.value) && |c.name.value| <= MaxNameLength
    ensures forall fault ::
      multiset(Validate(c).failures)[NameInvalid(fault)] == (if fault in RequiredText(c.name, MaxNameLength) then 1 else 0)
  {
    forall fault ensures multiset(Validate(c).failures)[NameInvalid(fault)] == if NameInvalid(fault) in Validate(c).failures then 1 else 0 {
      ReportedOnce(c, NameInvalid(fault));
    }
    FieldRulesReport(c);
    forall fault ensures NameInvalid(fault) in Validate(c).failures <==> NameInvalid(fault) in FieldFailures(c) {
      InFieldRules(c, NameInvalid(fault));
    }
    var faults := RequiredText(c.name, MaxNameLength);
    if faults != [] {
      assert faults[0] in faults;
    }
  }

  /** A present Partita IVA must match `^[0-9]{11}$`, a present Codice Fiscale `^[0-9]{11}|CF$`; null passes. */
  lemma TaxCodeRulesReport(c: Company)
    requires ChainSafe(c)
    ensures PartitaIvaInvalid in Validate(c).failures <==> c.partitaIva.Some? && !MatchesPartitaIva(c.partitaIva.value)
    ensures CodiceFiscaleInvalid in Validate(c).failures <==> c.codiceFiscale.Some? && !MatchesCodiceFiscale(c.codiceFiscale.value)
  {
    FieldRulesReport(c);
    InFieldRules(c, PartitaIvaInvalid);
    InFieldRules(c, CodiceFiscaleInvalid);
  }

  /** The existence rule fails unless both collections are present and non-empty. */
  lemma ExistenceRuleReport(c: Company)
    requires ChainSafe(c)
    ensures NoAddressesOrContacts in Validate(c).failures <==>
      || c.addresses.None? || |c.addresses.value| == 0
      || c.contacts.None? || |c.contacts.value| == 0
  {
    FieldRulesReport(c);
    InFieldRules(c, NoAddressesOrContacts);
  }

  /** Two addresses with the same location, city name and province code are reported; a null collection passes. */
  lemma DuplicateAddressesReport(c: Company)
    requires ChainSafe(c)
    ensures DuplicateAddresses in Validate(c).failures <==>
      && c.addresses.Some?
      && exists i, j | 0 <= i < j < |c.addresses.value| ::
        KeyOfAddress(c.addresses.value[i]) == KeyOfAddress(c.addresses.value[j])
  {
    InDuplicateAddresses(c);
    if c.addresses.Some? {
      var xs := c.addresses.value;
      assert forall k | 0 <= k < |xs| :: xs[k].city.Some?;
      NoDuplicateGroupsIffDistinct(KeysOf(xs, KeyOfAddress));
    }
  }

  /** Reordering the addresses never changes the duplicate verdict. */
  lemma AddressesDuplicatePermutation(xs: seq<Address>, ys: seq<Address>)
    requires multiset(xs) == multiset(ys)
    ensures AddressesDuplicateCheck(Some(xs)) == AddressesDuplicateCheck(Some(ys))
  {
    forall a ensures a in xs <==> a in ys {
      assert a in xs <==> a in multiset(xs);
      assert a in ys <==> a in multiset(ys);
    }
    assert (exists k | 0 <= k < |xs| :: xs[k].city.None?) <==> (exists k | 0 <= k < |ys| :: ys[k].city.None?) by {
      if k :| 0 <= k < |xs| && xs[k].city.None? {
        assert xs[k] in ys;
      }
      if k :| 0 <= k < |ys| && ys[k].city.None? {
        assert ys[k] in xs;
      }
    }
    KeysOfPermutation(xs, ys, KeyOfAddress);
    NoDuplicateGroupsPermutation(KeysOf(xs, KeyOfAddress), KeysOf(ys, KeyOfAddress));
  }

  /** A per-address failure is reported exactly when the per-address chain reports it. */
  lemma InAddressRules(c: Company, f: CompanyFailure)
    requires ChainSafe(c) && f.AddressInvalid?
    ensures Validate(c).Report?
    ensures f in Validate(c).failures <==> f in AddressRulesOf(c).failures
  {
    ReportParts(c);
    InParts(c, f);
  }

  /** The per-address chain of a company reports rule `rule` for address `i` exactly when that address fails it. */
  lemma InAddressChain(c: Company, rule: AddressRule, i: nat)
    requires ChainSafe(c) && c.addresses.Some?
    ensures AddressRulesOf(c).Report?
    ensures AddressInvalid(rule, i) in AddressRulesOf(c).failures <==>
      i < |c.addresses.value| && !RuleHolds(rule, c.addresses.value[i])
  {
    SafeChainReports(c);
    AddressesChainMember(c.addresses.value, 0, rule, i);
  }

  /** With no address that makes it throw, the per-address chain of a company reports. */
  lemma SafeChainReports(c: Company)
    requires ChainSafe(c) && c.addresses.Some?
    ensures AddressRulesOf(c) == AddressesChain(c.addresses.value, 0)
    ensures AddressesChain(c.addresses.value, 0).Report?
  {
    var xs := c.addresses.value;
    assert forall k | 0 <= k < |xs| :: !ChainCrashes(xs[k]);
  }

  /** Rule `rule` is reported for address `i` once if the address fails it, and otherwise not at all. */
  lemma AddressReportedAt(c: Company, rule: AddressRule, i: nat)
    requires ChainSafe(c) && c.addresses.Some?
    ensures Validate(c).Report?
    ensures multiset(Validate(c).failures)[AddressInvalid(rule, i)] ==
      (if i < |c.addresses.value| && !RuleHolds(rule, c.addresses.value[i]) then 1 else 0)
  {
    ReportedOnce(c, AddressInvalid(rule, i));
    InAddressRules(c, AddressInvalid(rule, i));
    InAddressChain(c, rule, i);
  }

  /** Every failing per-address rule is reported once, with that address's zero-based position. */
  lemma AddressRulesReport(c: Company)
    requires ChainSafe(c) && c.addresses.Some?
    ensures forall rule, i: nat :: AddressInvalid(rule, i) in Validate(c).failures <==>
      i < |c.addresses.value| && !RuleHolds(rule, c.addresses.value[i])
    ensures forall rule, i: nat ::
      multiset(Validate(c).failures)[AddressInvalid(rule, i)] == (if i < |c.addresses.value| && !RuleHolds(rule, c.addresses.value[i]) then 1 else 0)
  {
    forall rule, i: nat
      ensures multiset(Validate(c).failures)[AddressInvalid(rule, i)] == (if i < |c.addresses.value| && !RuleHolds(rule, c.addresses.value[i]) then 1 else 0)
    {
      AddressReportedAt(c, rule, i);
    }
  }

  /** Two contacts with the same type and value are reported; a null collection passes. */
  lemma DuplicateContactsReport(c: Company)
    requires ChainSafe(c)
    ensures DuplicateContacts in Validate(c).failures <==>
      && c.contacts.Some?
      && exists i, j | 0 <= i < j < |c.contacts.value| ::
        c.contacts.value[i].contactType == c.contacts.value[j].contactType
        && c.contacts.value[i].value == c.contacts.value[j].value
  {
    InDuplicateContacts(c);
    if c.contacts.Some? {
      var xs := c.contacts.value;
      NoDuplicateGroupsIffDistinct(KeysOf(xs, KeyOfContact));
      assert forall i, j | 0 <= i < |xs| && 0 <= j < |xs| ::
        KeysOf(xs, KeyOfContact)[i] == KeysOf(xs, KeyOfContact)[j] <==>
        xs[i].contactType == xs[j].contactType && xs[i].value == xs[j].value;
    }
  }

  /** Reordering the contacts never changes the duplicate verdict. */
  lemma ContactsDuplicatePermutation(xs: seq<Contact>, ys: seq<Contact>)
    requires multiset(xs) == multiset(ys)
    ensures ContactsDuplicateCheck(Some(xs)) == ContactsDuplicateCheck(Some(ys))
  {
    KeysOfPermutation(xs, ys, KeyOfContact);
    NoDuplicateGroupsPermutation(KeysOf(xs, KeyOfContact), KeysOf(ys, KeyOfContact));
  }

  /** Contact `i` is reported once if it has no value, and otherwise not at all. */
  lemma ContactReportedAt(c: Company, i: nat)
    requires ChainSafe(c) && c.contacts.Some?
    ensures Validate(c).Report?
    ensures multiset(Validate(c).failures)[ContactValueMissing(i)] ==
      (if i < |c.contacts.value| && c.contacts.value[i].value.None? then 1 else 0)
  {
    ReportedOnce(c, ContactValueMissing(i));
    InContactRules(c, ContactValueMissing(i));
    ContactRulesReport(c);
  }

  /** A contact failure is reported exactly when the contact rules report it. */
  lemma InContactRules(c: Company, f: CompanyFailure)
    requires ChainSafe(c) && (f.DuplicateContacts? || f.ContactValueMissing?)
    ensures Validate(c).Report?
    ensures f in Validate(c).failures <==> f in ContactRulesOf(c)
  {
    ReportParts(c);
    InParts(c, f);
  }

  /** Each contact without a value adds one failure carrying its position. */
  lemma ContactValuesReport(c: Company)
    requires ChainSafe(c) && c.contacts.Some?
    ensures forall i: nat :: ContactValueMissing(i) in Validate(c).failures <==>
      i < |c.contacts.value| && c.contacts.value[i].value.None?
    ensures forall i: nat ::
      multiset(Validate(c).failures)[ContactValueMissing(i)] == (if i < |c.contacts.value| && c.contacts.value[i].value.None? then 1 else 0)
  {
    forall i: nat
      ensures multiset(Validate(c).failures)[ContactValueMissing(i)] == (if i < |c.contacts.value| && c.contacts.value[i].value.None? then 1 else 0)
    {
      ContactReportedAt(c, i);
    }
  }

  // ---------------------------------------------------------------
  // The province and country rules
  // ---------------------------------------------------------------

  /**
   * The domestic rule rejects every address without a province or in province
   * "EE"; for any other province it rejects only a country coded "IT" that is
   * not named "ITALIA".
   */
  lemma DomesticRuleCases(a: Address)
    requires a.city.Some?
    ensures a.city.value.pv.None? ==> !RuleHolds(DomesticCountry, a)
    ensures a.city.value.pv == Some(ForeignProvince) ==> !RuleHolds(DomesticCountry, a)
    ensures a.city.value.pv.Some? && a.city.value.pv != Some(ForeignProvince) ==>
      (RuleHolds(DomesticCountry, a) <==>
        || a.city.value.country.None?
        || a.city.value.country.value.code != Some(DomesticCode)
        || a.city.value.country.value.name == Some(DomesticName))
  {
  }

  /**
   * Outside province "EE" both country rules pass; in it they need a country
   * with a non-blank name, and a code of one to three characters once trimmed.
   */
  lemma ForeignRulesCases(a: Address)
    requires a.city.Some?
    ensures a.city.value.pv != Some(ForeignProvince) ==>
      RuleHolds(CountryNameGiven, a) && RuleHolds(CountryCodeGiven, a)
    ensures a.city.value.pv == Some(ForeignProvince) ==>
      (RuleHolds(CountryNameGiven, a) <==>
        && a.city.value.country.Some?
        && a.city.value.country.value.name.Some?
        && !IsBlank(a.city.value.country.value.name.value))
    ensures a.city.value.pv == Some(ForeignProvince) ==>
      (RuleHolds(CountryCodeGiven, a) <==>
        && a.city.value.country.Some?
        && a.city.value.country.value.code.Some?
        && 0 < |Trim(a.city.value.country.value.code.value)| <= 3)
  {
  }

  /**
   * No company with an address in province "EE" is accepted: when the chain
   * does not crash, that address is reported under the domestic rule with its
   * position.
   */
  lemma ForeignAddressRejected(c: Company, i: nat)
    requires c.addresses.Some? && i < |c.addresses.value|
    requires c.addresses.value[i].city.Some? && c.addresses.value[i].city.value.pv == Some(ForeignProvince)
    ensures ChainSafe(c) ==> AddressInvalid(DomesticCountry, i) in Validate(c).failures
    ensures !IsValid(Validate(c))
  {
    if ChainSafe(c) {
      assert !RuleHolds(DomesticCountry, c.addresses.value[i]);
      AddressRulesReport(c);
    }
  }

  /** An address in Nice entered with the province in lower case. */
  function NiceAddress(): Address {
    Address(0, Some("Via Roma 1"), None, None, Some(City(0, Some("Nizza"), Some("ee"), None)), 0)
  }

  /** The trimmed location and city name of `NiceAddress` are not empty. */
  lemma NiceAddressNamed()
    ensures RuleHolds(LocationGiven, NiceAddress()) && RuleHolds(CityGiven, NiceAddress())
  {
    TrimOfTrimmed("Via Roma 1");
    TrimOfTrimmed("Nizza");
  }

  /** The lower-case province normalises to the foreign one. */
  lemma LowerCaseProvinceNormalised()
    ensures Normalise("ee") == ForeignProvince
  {
    TrimOfTrimmed("ee");
    assert Upper("ee")[0] == 'E' && Upper("ee")[1] == 'E';
  }

  /**
   * The rules compare the raw input: a lower-case "ee" province passes every
   * per-address rule, although its normalised form is "EE", the foreign
   * province the domestic rule rejects.
   */
  lemma LowerCaseProvinceAccepted()
    ensures forall rule :: RuleHolds(rule, NiceAddress())
    ensures NiceAddress().city.value.pv == Some("ee") && Normalise("ee") == ForeignProvince
  {
    NiceAddressNamed();
    LowerCaseProvinceNormalised();
    forall rule ensures RuleHolds(rule, NiceAddress()) {
      assert DomesticRule(NiceAddress().city.value);
    }
  }

  // ---------------------------------------------------------------
  // When a company is accepted
  // ---------------------------------------------------------------

  /** Every rule of the validator, stated over the whole graph. */
  predicate CompanyRulesHold(c: Company) {
    && c.name.Some? && !IsBlank(c.name.value) && |c.name.value| <= MaxNameLength
    && PartitaIvaRule(c.partitaIva)
    && CodiceFiscaleRule(c.codiceFiscale)
    && HasAddressesAndContacts(c)
    && (forall i, j | 0 <= i < j < |c.addresses.value| ::
          KeyOfAddress(c.addresses.value[i]) != KeyOfAddress(c.addresses.value[j]))
    && (forall rule, i | 0 <= i < |c.addresses.value| :: RuleHolds(rule, c.addresses.value[i]))
    && (forall i, j | 0 <= i < j < |c.contacts.value| ::
          KeyOfContact(c.contacts.value[i]) != KeyOfContact(c.contacts.value[j]))
    && (forall i | 0 <= i < |c.contacts.value| :: c.contacts.value[i].value.Some?)
  }

  /** An address that passes every rule adds no failure. */
  lemma {:induction false} ChecksClean(rules: seq<AddressRule>, a: Address, index: nat)
    requires forall rule :: RuleHolds(rule, a)
    ensures Checks(rules, a, index) == []
  {
    if |rules| > 0 {
      ChecksClean(rules[1..], a, index);
    }
  }

  /** Addresses that pass every rule make the chain report nothing. */
  lemma {:induction false} AddressesChainClean(xs: seq<Address>, start: nat)
    requires forall k | 0 <= k < |xs| :: !ChainCrashes(xs[k])
    requires forall rule, k | 0 <= k < |xs| :: RuleHolds(rule, xs[k])
    ensures AddressesChain(xs, start) == Report([])
  {
    if |xs| > 0 {
      ChecksClean(AddressRules, xs[0], start);
      AddressesChainClean(xs[1..], start + 1);
    }
  }

  /** Contacts that all carry a value make the per-contact rule report nothing. */
  lemma {:induction false} ContactsChainClean(xs: seq<Contact>, start: nat)
    requires forall k | 0 <= k < |xs| :: xs[k].value.Some?
    ensures ContactsChain(xs, start) == []
  {
    if |xs| > 0 {
      ContactsChainClean(xs[1..], start + 1);
    }
  }

  /** A company that passes every rule gets an empty report. */
  lemma RulesHoldAccepted(c: Company)
    requires ChainSafe(c) && CompanyRulesHold(c)
    ensures IsValid(Validate(c))
  {
    var xs := c.addresses.value;
    var cs := c.contacts.value;
    assert FieldFailures(c) == [] by {
      assert NameFailures(c.name) == [];
    }
    assert AddressesDuplicateCheck(c.addresses) == Report([]) by {
      NoDuplicateGroupsIffDistinct(KeysOf(xs, KeyOfAddress));
    }
    assert AddressRulesOf(c) == Report([]) by {
      AddressesChainClean(xs, 0);
    }
    assert ContactRulesOf(c) == [] by {
      NoDuplicateGroupsIffDistinct(KeysOf(cs, KeyOfContact));
      ContactsChainClean(cs, 0);
    }
  }

  /** A company with an empty report passes the field rules. */
  lemma AcceptedFieldRulesHold(c: Company)
    requires IsValid(Validate(c))
    ensures ChainSafe(c)
    ensures c.name.Some? && !IsBlank(c.name.value) && |c.name.value| <= MaxNameLength
    ensures PartitaIvaRule(c.partitaIva) && CodiceFiscaleRule(c.codiceFiscale)
    ensures HasAddressesAndContacts(c)
  {
    NameRuleReport(c);
    TaxCodeRulesReport(c);
    ExistenceRuleReport(c);
  }

  /** A company with an empty report has distinct addresses, each passing every per-address rule. */
  lemma AcceptedAddressRulesHold(c: Company)
    requires IsValid(Validate(c)) && c.addresses.Some?
    ensures forall i, j | 0 <= i < j < |c.addresses.value| ::
      KeyOfAddress(c.addresses.value[i]) != KeyOfAddress(c.addresses.value[j])
    ensures forall rule, i | 0 <= i < |c.addresses.value| :: RuleHolds(rule, c.addresses.value[i])
  {
    DuplicateAddressesReport(c);
    AddressRulesReport(c);
  }

  /** A company with an empty report has distinct contacts, each with a value. */
  lemma AcceptedContactRulesHold(c: Company)
    requires IsValid(Validate(c)) && c.contacts.Some?
    ensures forall i, j | 0 <= i < j < |c.contacts.value| ::
      KeyOfContact(c.contacts.value[i]) != KeyOfContact(c.contacts.value[j])
    ensures forall i | 0 <= i < |c.contacts.value| :: c.contacts.value[i].value.Some?
  {
    DuplicateContactsReport(c);
    ContactValuesReport(c);
  }

  /** A company with an empty report passes every rule. */
  lemma AcceptedRulesHold(c: Company)
    requires IsValid(Validate(c))
    ensures ChainSafe(c) && CompanyRulesHold(c)
  {
    AcceptedFieldRulesHold(c);
    AcceptedAddressRulesHold(c);
    AcceptedContactRulesHold(c);
  }

  /** The validator accepts a company exactly when it does not crash on it and every rule holds. */
  lemma ValidateAccepts(c: Company)
    ensures IsValid(Validate(c)) <==> ChainSafe(c) && CompanyRulesHold(c)
  {
    if IsValid(Validate(c)) {
      AcceptedRulesHold(c);
    }
    if ChainSafe(c) && CompanyRulesHold(c) {
      RulesHoldAccepted(c);
    }
  }
}
