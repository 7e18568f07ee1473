/**
 * The product validator: name and description bounds, a price strictly
 * above ten cents and a quantity of at least ten pieces. The category, the
 * photos, the owning company and the price's currency are not checked.
 */
module ProductValidator {
  import opened Wrappers
  import opened Strings
  import opened Enums
  import opened ValueObjects
  import opened Entities
  import opened Validation
  import opened Duplicates

  /** Upper bound of `Length(1, 255)` on the name. */
  const MaxNameLength: nat := 255
  /** Upper bound of `Length(1, 1024)` on the description. */
  const MaxDescriptionLength: nat := 1024
  /** The price must be strictly greater than this amount. */
  const PriceThreshold: real := 0.10
  /** The quantity must be strictly greater than this count. */
  const QuantityThreshold: int := 9

  /**
   * One failure of a product. A null price has no failure of its own: the
   * price rule's predicate dereferences it, so the whole call crashes.
   */
  datatype ProductFailure =
    | NameInvalid(fault: TextFault)
    | DescriptionInvalid(fault: TextFault)
    | PriceTooLow
    | QuantityTooLow

  /** The name rule's faults, each reported as a name failure. */
  function NameFailures(name: Option<string>): (r: seq<ProductFailure>)
    ensures forall f | f in r :: f.NameInvalid?
    ensures forall fault :: NameInvalid(fault) in r <==> fault in RequiredText(name, MaxNameLength)
    ensures Distinct(r)
  {
    Tagged(RequiredText(name, MaxNameLength), fault => NameInvalid(fault))
  }

  /** The description rule's faults, each reported as a description failure. */
  function DescriptionFailures(description: Option<string>): (r: seq<ProductFailure>)
    ensures forall f | f in r :: f.DescriptionInvalid?
    ensures forall fault :: DescriptionInvalid(fault) in r <==> fault in RequiredText(description, MaxDescriptionLength)
    ensures Distinct(r)
  {
    Tagged(RequiredText(description, MaxDescriptionLength), fault => DescriptionInvalid(fault))
  }

  /** `NotNull().Must(money => money.Amount > 0.10M)`: the predicate runs on null too, and throws. */
  function PriceRule(price: Option<Money>): (v: Verdict<ProductFailure>)
    ensures v.Crash? <==> price.None?
    ensures v.Report? ==> v.failures == [] || v.failures == [PriceTooLow]
    ensures v.Report? ==> (v.failures == [] <==> price.value.amount > PriceThreshold)
  {
    match price
    case None => Crash
    case Some(m) => Report(if m.amount > PriceThreshold then [] else [PriceTooLow])
  }

  /** `NotNull().Must(q => q > 9)`: `NotNull` never fails on an integer. */
  function QuantityFailures(quantity: int): seq<ProductFailure> {
    if quantity > QuantityThreshold then [] else [QuantityTooLow]
  }

  /**
   * `new ProductValidator().Validate(product)`: the four rules in declaration
   * order. It throws exactly when the price is null.
   */
  function Validate(p: Product): (v: Verdict<ProductFailure>)
    ensures v.Crash? <==> p.price.None?
  {
    Then(Report(NameFailures(p.name) + DescriptionFailures(p.description)),
      Then(PriceRule(p.price), Report(QuantityFailures(p.quantity))))
  }

  // ---------------------------------------------------------------
  // What the validator reports
  // ---------------------------------------------------------------

  /** Each rule reports on its own field only, and every failing check is reported. */
  lemma ValidateReport(p: Product)
    requires p.price.Some?
    ensures Validate(p).Report?
    ensures forall fault :: NameInvalid(fault) in Validate(p).failures <==> fault in RequiredText(p.name, MaxNameLength)
    ensures forall fault :: DescriptionInvalid(fault) in Validate(p).failures <==> fault in RequiredText(p.description, MaxDescriptionLength)
    ensures PriceTooLow in Validate(p).failures <==> p.price.value.amount <= PriceThreshold
    ensures QuantityTooLow in Validate(p).failures <==> p.quantity < 10
    ensures Distinct(Validate(p).failures)
  {
    ValidateParts(p);
    NameReport(p);
    DescriptionReport(p);
    PriceAndQuantityReport(p);
    ReportDistinct(p);
  }

  /** With a price present, the report is the four rules' failures in declaration order. */
  lemma ValidateParts(p: Product)
    requires p.price.Some?
    ensures Validate(p).Report?
    ensures Validate(p).failures ==
      (NameFailures(p.name) + DescriptionFailures(p.description)) + (PriceRule(p.price).failures + QuantityFailures(p.quantity))
  {
    var rest := Then(PriceRule(p.price), Report(QuantityFailures(p.quantity)));
    assert rest.failures == PriceRule(p.price).failures + QuantityFailures(p.quantity);
  }

  /** The name rule's failures are exactly the failing checks of the name. */
  lemma NameReport(p: Product)
    requires p.price.Some?
    ensures Validate(p).Report?
    ensures forall fault :: NameInvalid(fault) in Validate(p).failures <==> fault in RequiredText(p.name, MaxNameLength)
  {
    ValidateParts(p);
  }

  /** The description rule's failures are exactly the failing checks of the description. */
  lemma DescriptionReport(p: Product)
    requires p.price.Some?
    ensures Validate(p).Report?
    ensures forall fault :: DescriptionInvalid(fault) in Validate(p).failures <==> fault in RequiredText(p.description, MaxDescriptionLength)
  {
    ValidateParts(p);
  }

  /** The price and quantity failures appear exactly when their comparisons fail. */
  lemma PriceAndQuantityReport(p: Product)
    requires p.price.Some?
    ensures Validate(p).Report?
    ensures PriceTooLow in Validate(p).failures <==> p.price.value.amount <= PriceThreshold
    ensures QuantityTooLow in Validate(p).failures <==> p.quantity < 10
  {
    ValidateParts(p);
    assert PriceTooLow !in NameFailures(p.name) + DescriptionFailures(p.description);
    assert QuantityTooLow !in NameFailures(p.name) + DescriptionFailures(p.description);
  }

  /** No failure appears twice in the report. */
  lemma ReportDistinct(p: Product)
    requires p.price.Some?
    ensures Validate(p).Report?
    ensures Distinct(Validate(p).failures)
  {
    ValidateParts(p);
    PartsDistinct(NameFailures(p.name), DescriptionFailures(p.description), PriceRule(p.price).failures, QuantityFailures(p.quantity));
  }

  /** Four parts, each without repeats and each holding failures of its own kind, join without repeats. */
  lemma PartsDistinct(names: seq<ProductFailure>, descriptions: seq<ProductFailure>, price: seq<ProductFailure>, quantity: seq<ProductFailure>)
    requires Distinct(names) && forall f | f in names :: f.NameInvalid?
    requires Distinct(descriptions) && forall f | f in descriptions :: f.DescriptionInvalid?
    requires price == [] || price == [PriceTooLow]
    requires quantity == [] || quantity == [QuantityTooLow]
    ensures Distinct((names + descriptions) + (price + quantity))
  {
    DistinctConcat(names, descriptions);
    DistinctConcat(price, quantity);
    DistinctConcat(names + descriptions, price + quantity);
  }

  /** Every rule of the validator, stated over the product's fields. */
  predicate ProductRulesHold(p: Product) {
    && p.name.Some? && !IsBlank(p.name.value) && |p.name.value| <= MaxNameLength
    && p.description.Some? && !IsBlank(p.description.value) && |p.description.value| <= MaxDescriptionLength
    && p.price.Some? && p.price.value.amount > PriceThreshold
    && p.quantity >= 10
  }

  /** The validator accepts a product exactly when every rule holds. */
  lemma ValidateAccepts(p: Product)
    ensures IsValid(Validate(p)) <==> ProductRulesHold(p)
  {
    if p.price.Some? {
      ValidateReport(p);
      if IsValid(Validate(p)) {
        assert forall fault :: fault !in RequiredText(p.name, MaxNameLength);
        assert forall fault :: fault !in RequiredText(p.description, MaxDescriptionLength);
      }
    }
  }

  /** A price of exactly ten cents is rejected, although the rule's message says "at least". */
  lemma TenCentsRejected(p: Product)
    requires p.price.Some? && p.price.value.amount == 0.10
    ensures PriceTooLow in Validate(p).failures
    ensures !IsValid(Validate(p))
  {
    ValidateReport(p);
  }

  /** A product failing only the price check gets exactly one failure, the price failure. */
  lemma OnlyPriceFails(p: Product)
    requires p.name.Some? && !IsBlank(p.name.value) && |p.name.value| <= MaxNameLength
    requires p.description.Some? && !IsBlank(p.description.value) && |p.description.value| <= MaxDescriptionLength
    requires p.quantity >= 10
    requires p.price.Some? && p.price.value.amount <= PriceThreshold
    ensures Validate(p) == Report([PriceTooLow])
  {
  }

  /**
   * Changing the category, photos or identities, or replacing the price by
   * one of the same amount in any currency, never changes the verdict.
   */
  lemma UnconstrainedFields(p: Product, category: Option<ProductCategory>, photos: Option<seq<ProductPhoto>>, id: int, companyId: int, price: Option<Money>)
    requires price.Some? <==> p.price.Some?
    requires price.Some? ==> price.value.amount == p.price.value.amount
    ensures Validate(p.(category := category, photos := photos, id := id, companyId := companyId, price := price)) == Validate(p)
  {
  }

  /** A product straight from a constructor has no description, so it is never accepted. */
  lemma ConstructedProductRejected(name: Option<string>, quantity: int, price: Money, category: ProductCategory, categoryName: Option<string>)
    ensures DescriptionInvalid(IsNull) in Validate(ProductInCategory(name, quantity, price, category)).failures
    ensures DescriptionInvalid(IsNull) in Validate(ProductInNamedCategory(name, quantity, price, categoryName)).failures
    ensures !IsValid(Validate(ProductInCategory(name, quantity, price, category)))
    ensures !IsValid(Validate(ProductInNamedCategory(name, quantity, price, categoryName)))
  {
    ValidateReport(ProductInCategory(name, quantity, price, category));
    ValidateReport(ProductInNamedCategory(name, quantity, price, categoryName));
  }

  /** A widget priced five euro cents, otherwise valid, reports the price and nothing else. */
  lemma CheapWidgetRejected()
    ensures Validate(Product(0, Some("Widget"), Some("A widget"), 50, Some(MoneyRecord(EUR, 0.05)), None, 0, None)) == Report([PriceTooLow])
  {
    assert !IsBlank("Widget") by {
      assert !IsWhiteSpace("Widget"[0]);
    }
    assert !IsBlank("A widget") by {
      assert !IsWhiteSpace("A widget"[0]);
    }
    OnlyPriceFails(Product(0, Some("Widget"), Some("A widget"), 50, Some(MoneyRecord(EUR, 0.05)), None, 0, None));
  }
}
