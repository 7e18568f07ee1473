/**
 * The text normaliser: one reflective pass over the public properties of a
 * single object that trims and upper-cases every writable string property
 * holding a value. An object is modelled by the list of its properties as
 * reflection enumerates them; the pass does not descend into property values
 * that are objects or collections.
 */
module StringUtils {
  import opened Wrappers
  import opened Strings
  import opened ValueObjects
  import opened Entities

  /** A property's current value: a string, possibly null, or a value of any other type `O`. */
  datatype Value<O> = Text(text: Option<string>) | Other(other: O)

  /** One public instance property: its name, whether it has a setter, and its value. */
  datatype Property<O> = Property(name: string, writable: bool, value: Value<O>)

  /** The pass rewrites a property exactly when it is a writable string holding a value. */
  predicate Touched<O>(p: Property<O>) {
    p.writable && p.value.Text? && p.value.text.Some?
  }

  /** The property after the pass. */
  function NormaliseProperty<O>(p: Property<O>): Property<O> {
    if Touched(p) then p.(value := Text(Some(Normalise(p.value.text.value)))) else p
  }

  /**
   * Every property after the pass, in order: names and setters stay, an
   * untouched property keeps its value, and a touched one keeps a non-null
   * string no longer than before.
   */
  function Normalised<O>(props: seq<Property<O>>): (r: seq<Property<O>>)
    ensures |r| == |props|
    ensures forall i | 0 <= i < |props| :: r[i].name == props[i].name && r[i].writable == props[i].writable
    ensures forall i | 0 <= i < |props| && !Touched(props[i]) :: r[i] == props[i]
    ensures forall i | 0 <= i < |props| && Touched(props[i]) ::
      Touched(r[i]) && |r[i].value.text.value| <= |props[i].value.text.value|
  {
    seq(|props|, i requires 0 <= i < |props| => NormaliseProperty(props[i]))
  }

  /** The pass is the property-by-property rewrite. */
  lemma NormalisedAt<O>(props: seq<Property<O>>, out: seq<Property<O>>)
    requires |out| == |props|
    requires forall i | 0 <= i < |props| :: out[i] == NormaliseProperty(props[i])
    ensures Normalised(props) == out
  {
  }

  /** A writable string property becomes its normalised form, null staying null. */
  lemma TextPropertyPass<O>(name: string, t: Option<string>)
    ensures NormaliseProperty<O>(Property(name, true, Text(t))) == Property(name, true, Text(NormaliseText(t)))
  {
  }

  /**
   * `Utils.String.ToUpper(object)`: nothing happens to null; otherwise each
   * writable string property with a value is replaced by its trimmed,
   * upper-cased form, and every other property keeps its value.
   */
  method ToUpper<O>(obj: Option<seq<Property<O>>>) returns (r: Option<seq<Property<O>>>)
    ensures obj.None? <==> r.None?
    ensures obj.Some? ==> |r.value| == |obj.value|
    ensures obj.Some? ==> forall i | 0 <= i < |obj.value| ::
      && r.value[i].name == obj.value[i].name
      && r.value[i].writable == obj.value[i].writable
      && (Touched(obj.value[i]) ==> r.value[i].value == Text(Some(Normalise(obj.value[i].value.text.value))))
      && (!Touched(obj.value[i]) ==> r.value[i] == obj.value[i])
    ensures obj.Some? ==> r.value == Normalised(obj.value)
  {
    if obj.None? {
      return None;
    }
    var props := obj.value;
    var out: seq<Property<O>> := [];
    for i := 0 to |props|
      invariant |out| == i
      invariant forall k | 0 <= k < i :: out[k] == NormaliseProperty(props[k])
    {
      var p := props[i];
      if p.writable && p.value.Text? && p.value.text.Some? {
        var s := Trim(p.value.text.value);
        s := Upper(s);
        p := p.(value := Text(Some(s)));
      }
      out := out + [p];
    }
    return Some(out);
  }

  // ---------------------------------------------------------------
  // Properties of the pass
  // ---------------------------------------------------------------

  /** A null string stays null: it never becomes an empty string. */
  lemma NullTextKept<O>(props: seq<Property<O>>, i: nat)
    requires i < |props| && props[i].value == Text(None)
    ensures Normalised(props)[i].value == Text(None)
  {
  }

  /** Running the pass twice gives what running it once gives. */
  lemma {:induction false} NormalisedIdempotent<O>(props: seq<Property<O>>)
    ensures Normalised(Normalised(props)) == Normalised(props)
  {
    var once := Normalised(props);
    forall i | 0 <= i < |props| ensures Normalised(once)[i] == once[i] {
      if Touched(props[i]) {
        NormaliseIdempotent(props[i].value.text.value);
      }
    }
  }

  /** An object without string properties is left as it was. */
  lemma NoTextUnchanged<O>(props: seq<Property<O>>)
    requires forall i | 0 <= i < |props| :: props[i].value.Other?
    ensures Normalised(props) == props
  {
  }

  /** A normalised string is never longer, and blank exactly when the original is. */
  lemma NormaliseShape(s: string)
    ensures |Normalise(s)| <= |s|
    ensures IsBlank(Normalise(s)) <==> IsBlank(s)
  {
    NormaliseBlank(s);
  }

  // ---------------------------------------------------------------
  // The objects the controllers normalise
  // ---------------------------------------------------------------

  /** What `Normalise` does to a property that may be null. */
  function NormaliseText(s: Option<string>): Option<string> {
    MapOption(s, Normalise)
  }

  /** Non-string property values of a company. */
  datatype CompanyValue =
    | CompanyNumber(number: int)
    | AddressList(addresses: Option<seq<Address>>)
    | ContactList(contacts: Option<seq<Contact>>)
    | ProductList(products: Option<seq<Product>>)

  /** A company's properties in declaration order. */
  function CompanyView(c: Company): seq<Property<CompanyValue>> {
    [ Property("Id", true, Other(CompanyNumber(c.id))),
      Property("Name", true, Text(c.name)),
      Property("PartitaIva", true, Text(c.partitaIva)),
      Property("CodiceFiscale", true, Text(c.codiceFiscale)),
      Property("Addresses", true, Other(AddressList(c.addresses))),
      Property("Contacts", true, Other(ContactList(c.contacts))),
      Property("Products", true, Other(ProductList(c.products))) ]
  }

  /** The company the pass leaves behind: its own three strings normalised, its collections untouched. */
  function NormaliseCompany(c: Company): (d: Company)
    ensures d.id == c.id
    ensures d.addresses == c.addresses && d.contacts == c.contacts && d.products == c.products
  {
    c.(name := NormaliseText(c.name), partitaIva := NormaliseText(c.partitaIva), codiceFiscale := NormaliseText(c.codiceFiscale))
  }

  /** The pass over a company's properties yields the properties of the normalised company. */
  lemma CompanyPass(c: Company)
    ensures Normalised(CompanyView(c)) == CompanyView(NormaliseCompany(c))
  {
    var before := CompanyView(c);
    var after := CompanyView(NormaliseCompany(c));
    TextPropertyPass<CompanyValue>("Name", c.name);
    TextPropertyPass<CompanyValue>("PartitaIva", c.partitaIva);
    TextPropertyPass<CompanyValue>("CodiceFiscale", c.codiceFiscale);
    forall i | 0 <= i < |before| ensures after[i] == NormaliseProperty(before[i]) {
      if i == 1 || i == 2 || i == 3 {
        assert before[i].value.Text?;
      } else {
        assert before[i] == after[i] && before[i].value.Other?;
      }
    }
    NormalisedAt(before, after);
  }

  /** Non-string property values of a product. */
  datatype ProductValue =
    | ProductNumber(number: int)
    | Price(price: Option<Money>)
    | Category(category: Option<ProductCategory>)
    | PhotoList(photos: Option<seq<ProductPhoto>>)

  /** A product's properties in declaration order. */
  function ProductView(p: Product): seq<Property<ProductValue>> {
    [ Property("Id", true, Other(ProductNumber(p.id))),
      Property("Name", true, Text(p.name)),
      Property("Description", true, Text(p.description)),
      Property("Quantity", true, Other(ProductNumber(p.quantity))),
      Property("Price", true, Other(Price(p.price))),
      Property("Category", true, Other(Category(p.category))),
      Property("CompanyId", true, Other(ProductNumber(p.companyId))),
      Property("Photos", true, Other(PhotoList(p.photos))) ]
  }

  /** The product the pass leaves behind: name and description normalised, its category object untouched. */
  function NormaliseProduct(p: Product): (q: Product)
    ensures q.category == p.category && q.price == p.price && q.photos == p.photos
    ensures q.id == p.id && q.quantity == p.quantity && q.companyId == p.companyId
  {
    p.(name := NormaliseText(p.name), description := NormaliseText(p.description))
  }

  lemma ProductPass(p: Product)
    ensures Normalised(ProductView(p)) == ProductView(NormaliseProduct(p))
  {
    var before := ProductView(p);
    var after := ProductView(NormaliseProduct(p));
    TextPropertyPass<ProductValue>("Name", p.name);
    TextPropertyPass<ProductValue>("Description", p.description);
    forall i | 0 <= i < |before| ensures after[i] == NormaliseProperty(before[i]) {
      if i == 1 || i == 2 {
        assert before[i].value.Text?;
      } else {
        assert before[i] == after[i] && before[i].value.Other?;
      }
    }
    NormalisedAt(before, after);
  }

  /** A category's properties in declaration order. */
  function CategoryView(c: ProductCategory): seq<Property<int>> {
    [ Property("Id", true, Other(c.id)),
      Property("Name", true, Text(c.name)),
      Property("Description", true, Text(c.description)) ]
  }

  /** The category the pass leaves behind: name and description normalised, its identity untouched. */
  function NormaliseCategory(c: ProductCategory): (d: ProductCategory)
    ensures d.id == c.id
    ensures d.name.None? <==> c.name.None?
    ensures d.description.None? <==> c.description.None?
  {
    c.(name := NormaliseText(c.name), description := NormaliseText(c.description))
  }

  lemma CategoryPass(c: ProductCategory)
    ensures Normalised(CategoryView(c)) == CategoryView(NormaliseCategory(c))
  {
    var before := CategoryView(c);
    var after := CategoryView(NormaliseCategory(c));
    TextPropertyPass<int>("Name", c.name);
    TextPropertyPass<int>("Description", c.description);
    forall i | 0 <= i < |before| ensures after[i] == NormaliseProperty(before[i]) {
      if i == 1 || i == 2 {
        assert before[i].value.Text?;
      } else {
        assert before[i] == after[i] && before[i].value.Other?;
      }
    }
    NormalisedAt(before, after);
  }

  /** Non-string property values of a list: its two counters, and the indexer `Item`. */
  datatype ListValue = ListNumber(number: nat) | Indexer

  /**
   * A list, as reflection sees it, exposes its capacity, its count and the
   * indexer `Item`. The indexer's type is the element type, not `String`, so
   * the pass skips it without reading it: the pass over a list of addresses
   * changes no address.
   */
  function ListView<T>(xs: seq<T>, capacity: nat): seq<Property<ListValue>> {
    [ Property("Capacity", true, Other(ListNumber(capacity))),
      Property("Count", false, Other(ListNumber(|xs|))),
      Property("Item", true, Other(Indexer)) ]
  }

  lemma ListPassChangesNothing<T>(xs: seq<T>, capacity: nat)
    ensures Normalised(ListView(xs, capacity)) == ListView(xs, capacity)
  {
    NoTextUnchanged(ListView(xs, capacity));
  }

  /** Normalising a company twice gives what normalising it once gives. */
  lemma NormaliseCompanyIdempotent(c: Company)
    ensures NormaliseCompany(NormaliseCompany(c)) == NormaliseCompany(c)
  {
    if c.name.Some? {
      NormaliseIdempotent(c.name.value);
    }
    if c.partitaIva.Some? {
      NormaliseIdempotent(c.partitaIva.value);
    }
    if c.codiceFiscale.Some? {
      NormaliseIdempotent(c.codiceFiscale.value);
    }
  }

  /** Normalising a product twice gives what normalising it once gives. */
  lemma NormaliseProductIdempotent(p: Product)
    ensures NormaliseProduct(NormaliseProduct(p)) == NormaliseProduct(p)
  {
    if p.name.Some? {
      NormaliseIdempotent(p.name.value);
    }
    if p.description.Some? {
      NormaliseIdempotent(p.description.value);
    }
  }
}
