/**
 * What the entity constructors build, measured against the company
 * validator: which graphs they produce pass which rules.
 */
module CompanyGraphs {
  import opened Wrappers
  import opened Strings
  import opened Enums
  import opened Entities
  import opened Validation
  import opened Duplicates
  import opened CompanyValidator
  import opened StringUtils

  // ---------------------------------------------------------------
  // Cities and addresses
  // ---------------------------------------------------------------

  /** A domestic city with a province other than "EE" passes the domestic rule, since its country is Italy. */
  lemma DomesticCityPassesDomesticRule(name: Option<string>, pv: Option<string>)
    requires pv.Some? && pv != Some(ForeignProvince)
    ensures DomesticRule(DomesticCity(name, pv))
  {
  }

  /** A foreign city always fails the domestic rule: its province is "EE". */
  lemma ForeignCityFailsDomesticRule(name: Option<string>, country: Country)
    ensures !DomesticRule(ForeignCity(name, country))
  {
  }

  /**
   * A foreign address, with or without coordinates, fails the country-name
   * rule (its country has no name) as well as the domestic rule.
   */
  lemma ForeignAddressFailsCountryRules(location: Option<string>, citta: Option<string>, sigla: Option<string>, latitude: real, longitude: real)
    ensures !RuleHolds(CountryNameGiven, ForeignAddress(location, citta, sigla))
    ensures !RuleHolds(DomesticCountry, ForeignAddress(location, citta, sigla))
    ensures !RuleHolds(CountryNameGiven, GeoForeignAddress(location, citta, sigla, latitude, longitude))
    ensures !RuleHolds(DomesticCountry, GeoForeignAddress(location, citta, sigla, latitude, longitude))
  {
  }

  /** Whatever else it holds, a company with a foreign address is rejected. */
  lemma CompanyWithForeignAddressRejected(name: Option<string>, location: Option<string>, citta: Option<string>, sigla: Option<string>, contact: Contact)
    ensures !IsValid(Validate(CompanyWith(name, ForeignAddress(location, citta, sigla), contact)))
  {
    ForeignAddressRejected(CompanyWith(name, ForeignAddress(location, citta, sigla), contact), 0);
  }

  // ---------------------------------------------------------------
  // Companies
  // ---------------------------------------------------------------

  /**
   * A company built from one address and one contact passes the tax-code,
   * existence and both duplicate rules; what it can still fail is the name,
   * the rules of its one address (at position 0) and the value of its one
   * contact (at position 0).
   */
  lemma CompanyWithReport(name: Option<string>, address: Address, contact: Contact)
    requires !ChainCrashes(address)
    ensures var v := Validate(CompanyWith(name, address, contact));
      && v.Report?
      && PartitaIvaInvalid !in v.failures && CodiceFiscaleInvalid !in v.failures
      && NoAddressesOrContacts !in v.failures
      && DuplicateAddresses !in v.failures && DuplicateContacts !in v.failures
      && (forall fault :: NameInvalid(fault) in v.failures <==> fault in RequiredText(name, MaxNameLength))
      && (forall rule, i: nat :: AddressInvalid(rule, i) in v.failures <==> i == 0 && !RuleHolds(rule, address))
      && (forall i: nat :: ContactValueMissing(i) in v.failures <==> i == 0 && contact.value.None?)
  {
    CompanyWithRulesPass(name, address, contact);
    CompanyWithNameReport(name, address, contact);
    CompanyWithItemsReport(name, address, contact);
  }

  /** Such a company passes the tax-code, existence and duplicate rules. */
  lemma CompanyWithRulesPass(name: Option<string>, address: Address, contact: Contact)
    requires !ChainCrashes(address)
    ensures var v := Validate(CompanyWith(name, address, contact));
      && v.Report?
      && PartitaIvaInvalid !in v.failures && CodiceFiscaleInvalid !in v.failures
      && NoAddressesOrContacts !in v.failures
      && DuplicateAddresses !in v.failures && DuplicateContacts !in v.failures
  {
    var c := CompanyWith(name, address, contact);
    assert ChainSafe(c);
    TaxCodeRulesReport(c);
    ExistenceRuleReport(c);
    DuplicateAddressesReport(c);
    DuplicateContactsReport(c);
  }

  /** Such a company's name failures are the failing checks of its name. */
  lemma CompanyWithNameReport(name: Option<string>, address: Address, contact: Contact)
    requires !ChainCrashes(address)
    ensures forall fault :: NameInvalid(fault) in Validate(CompanyWith(name, address, contact)).failures <==>
      fault in RequiredText(name, MaxNameLength)
  {
    var c := CompanyWith(name, address, contact);
    assert ChainSafe(c);
    NameRuleReport(c);
  }

  /** Such a company's address and contact failures are those of its one address and one contact, at position 0. */
  lemma CompanyWithItemsReport(name: Option<string>, address: Address, contact: Contact)
    requires !ChainCrashes(address)
    ensures var v := Validate(CompanyWith(name, address, contact));
      && (forall rule, i: nat :: AddressInvalid(rule, i) in v.failures <==> i == 0 && !RuleHolds(rule, address))
      && (forall i: nat :: ContactValueMissing(i) in v.failures <==> i == 0 && contact.value.None?)
  {
    var c := CompanyWith(name, address, contact);
    assert ChainSafe(c);
    AddressRulesReport(c);
    ContactValuesReport(c);
  }

  /** Such a company is accepted exactly when its name, its address and its contact's value pass. */
  lemma CompanyWithAccepted(name: Option<string>, address: Address, contact: Contact)
    ensures IsValid(Validate(CompanyWith(name, address, contact))) <==>
      && name.Some? && !IsBlank(name.value) && |name.value| <= MaxNameLength
      && !ChainCrashes(address)
      && (forall rule :: RuleHolds(rule, address))
      && contact.value.Some?
  {
    var c := CompanyWith(name, address, contact);
    ValidateAccepts(c);
    assert ChainSafe(c) <==> !ChainCrashes(address) by {
      assert c.addresses.value[0] == address;
    }
    assert (forall rule, i | 0 <= i < |c.addresses.value| :: RuleHolds(rule, c.addresses.value[i]))
      <==> (forall rule :: RuleHolds(rule, address)) by {
      assert c.addresses.value[0] == address;
    }
    assert (forall i | 0 <= i < |c.contacts.value| :: c.contacts.value[i].value.Some?) <==> contact.value.Some? by {
      assert c.contacts.value[0] == contact;
    }
  }

  /** A default company reports a null name (as null and as empty) and the missing collections, nothing else. */
  lemma NewCompanyReport()
    ensures Validate(NewCompany()) == Report([NameInvalid(IsNull), NameInvalid(IsEmpty), NoAddressesOrContacts])
  {
    var faults := RequiredText(None, MaxNameLength);
    assert faults == [IsNull, IsEmpty];
  }

  /** A default contact has no value, so it is reported at its position. */
  lemma NewContactReported(name: Option<string>, address: Address)
    requires !ChainCrashes(address)
    ensures ContactValueMissing(0) in Validate(CompanyWith(name, address, NewContact())).failures
  {
    CompanyWithReport(name, address, NewContact());
  }

  // ---------------------------------------------------------------
  // Two concrete graphs
  // ---------------------------------------------------------------

  /** The address of the example company: a city given by name and province, with no country. */
  function RomeAddress(): Address {
    Address(0, Some("Via Roma 1"), None, None, Some(City(0, Some("Roma"), Some("RM"), None)), 0)
  }

  /** The example address passes every per-address rule without throwing. */
  lemma RomeAddressPasses()
    ensures !ChainCrashes(RomeAddress())
    ensures forall rule :: RuleHolds(rule, RomeAddress())
  {
    var a := RomeAddress();
    TrimOfTrimmed("Via Roma 1");
    TrimOfTrimmed("Roma");
    forall rule ensures RuleHolds(rule, a) {
      assert DomesticRule(a.city.value);
    }
  }

  /** "Acme Srl" in Rome with an e-mail contact is accepted. */
  lemma AcmeAccepted()
    ensures IsValid(Validate(CompanyWith(Some("Acme Srl"), RomeAddress(), EmailContact(Some("info@acme.it")))))
  {
    assert !IsBlank("Acme Srl") by {
      assert !IsWhiteSpace("Acme Srl"[0]);
    }
    RomeAddressPasses();
    CompanyWithAccepted(Some("Acme Srl"), RomeAddress(), EmailContact(Some("info@acme.it")));
  }

  /**
   * Insert normalises the company and then its address list; Update
   * normalises only the company. Neither pass reaches the cities inside the
   * addresses, so a lower-case province that passed the rules is stored as
   * entered, not as "EE".
   */
  lemma LowerCaseProvinceStoredAsEntered(c: Company, capacity: nat)
    requires c.addresses == Some([NiceAddress()])
    ensures NormaliseCompany(c).addresses.value[0].city.value.pv == Some("ee")
    ensures Normalised(ListView(c.addresses.value, capacity)) == ListView(c.addresses.value, capacity)
    ensures Normalise("ee") == ForeignProvince
  {
    ListPassChangesNothing(c.addresses.value, capacity);
    LowerCaseProvinceNormalised();
  }

  /** Listing the same address twice is reported as a duplicate, and the company is rejected. */
  lemma RepeatedAddressReported(c: Company, a: Address)
    requires c.addresses == Some([a, a]) && !ChainCrashes(a)
    ensures DuplicateAddresses in Validate(c).failures
    ensures !IsValid(Validate(c))
  {
    var xs := c.addresses.value;
    assert ChainSafe(c);
    DuplicateAddressesReport(c);
    assert KeyOfAddress(xs[0]) == KeyOfAddress(xs[1]);
  }
}
