/**
 * The entity graph: Company with its Addresses (each with a City and its
 * Country) and Contacts, and Product with its Money price and category.
 * Every C# reference that may be null is an `Option`; identities are the
 * integers the database assigns, 0 until the entity is saved. Navigation
 * properties that point back to an owner (Address.Company, City.Addresses,
 * Country.Cities, ProductCategory.Products, ...) are not part of this model.
 */
module Entities {
  import opened Wrappers
  import opened Enums
  import opened ValueObjects

  datatype Country = Country(id: int, code: Option<string>, name: Option<string>)

  /** A comune (province code `pv`) or, with the sentinel province "EE", a foreign city. */
  datatype City = City(id: int, name: Option<string>, pv: Option<string>, country: Option<Country>)

  datatype GeoLocation = GeoLocation(id: int, latitude: real, longitude: real, addressId: int)

  datatype Address = Address(
    id: int,
    location: Option<string>,
    postalCode: Option<string>,
    geoLocation: Option<GeoLocation>,
    city: Option<City>,
    companyId: int)

  datatype Contact = Contact(id: int, contactType: ContactType, value: Option<string>, order: int, companyId: int)

  datatype ProductCategory = ProductCategory(id: int, name: Option<string>, description: Option<string>)

  datatype ProductPhoto = ProductPhoto(id: int, guid: Option<string>, productId: int)

  datatype Product = Product(
    id: int,
    name: Option<string>,
    description: Option<string>,
    quantity: int,
    price: Option<Money>,
    category: Option<ProductCategory>,
    companyId: int,
    photos: Option<seq<ProductPhoto>>)

  datatype Company = Company(
    id: int,
    name: Option<string>,
    partitaIva: Option<string>,
    codiceFiscale: Option<string>,
    addresses: Option<seq<Address>>,
    contacts: Option<seq<Contact>>,
    products: Option<seq<Product>>)

  /** The province code that marks a foreign city. */
  const ForeignProvince: string := "EE"
  /** Code and name of the domestic country. */
  const DomesticCode: string := "IT"
  const DomesticName: string := "ITALIA"

  // ---------------------------------------------------------------
  // Country
  // ---------------------------------------------------------------

  /** `new Country(code)`: the name keeps its null initialiser. */
  function CountryWithCode(code: Option<string>): Country {
    Country(0, code, None)
  }

  /** `new Country(code, name)`. */
  function CountryNamed(code: Option<string>, name: Option<string>): Country {
    Country(0, code, name)
  }

  /** The country every domestic city is created with. */
  function Italy(): (c: Country)
    ensures c.code == Some(DomesticCode) && c.name == Some(DomesticName)
  {
    CountryNamed(Some(DomesticCode), Some(DomesticName))
  }

  // ---------------------------------------------------------------
  // City
  // ---------------------------------------------------------------

  /** `new City()`: every reference null. */
  function NewCity(): City {
    City(0, None, None, None)
  }

  /** `new City(name, pv)`: a domestic city, always attached to Italy. */
  function DomesticCity(name: Option<string>, pv: Option<string>): (c: City)
    ensures c.name == name && c.pv == pv
    ensures c.country == Some(Italy())
  {
    City(0, name, pv, Some(Italy()))
  }

  /** `new City(name, country)`: a foreign city, marked by the "EE" province. */
  function ForeignCity(name: Option<string>, country: Country): (c: City)
    ensures c.name == name && c.pv == Some(ForeignProvince)
    ensures c.country == Some(country)
  {
    City(0, name, Some(ForeignProvince), Some(country))
  }

  // ---------------------------------------------------------------
  // Address
  // ---------------------------------------------------------------

  /** `new Address()`: every reference null, identities 0. */
  function NewAddress(): Address {
    Address(0, None, None, None, None, 0)
  }

  /** `new Address(location, comune, pv, postalCode)`. */
  function DomesticAddress(location: Option<string>, comune: Option<string>, pv: Option<string>, postalCode: Option<string>): (a: Address)
    ensures a.location == location && a.postalCode == postalCode
    ensures a.city == Some(DomesticCity(comune, pv))
    ensures a.geoLocation.None? && a.id == 0 && a.companyId == 0
  {
    NewAddress().(location := location, postalCode := postalCode, city := Some(DomesticCity(comune, pv)))
  }

  /**
   * `new Address(location, citta, siglaNazione)`: the city is built by the
   * domestic constructor with province "EE", whose Italy is then replaced by
   * a country carrying only the code.
   */
  function ForeignAddress(location: Option<string>, citta: Option<string>, siglaNazione: Option<string>): (a: Address)
    ensures a.location == location && a.postalCode.None?
    ensures a.city.Some? && a.city.value.name == citta && a.city.value.pv == Some(ForeignProvince)
    ensures a.city.value.country == Some(Country(0, siglaNazione, None))
    ensures a.geoLocation.None? && a.id == 0 && a.companyId == 0
  {
    var city := DomesticCity(citta, Some(ForeignProvince)).(country := Some(CountryWithCode(siglaNazione)));
    NewAddress().(location := location, city := Some(city))
  }

  /** `new GeoLocation(latitude, longitude)`. */
  function NewGeoLocation(latitude: real, longitude: real): GeoLocation {
    GeoLocation(0, latitude, longitude, 0)
  }

  /** `new Address(location, citta, siglaNazione, latitude, longitude)`: the foreign address plus its coordinates. */
  function GeoForeignAddress(location: Option<string>, citta: Option<string>, siglaNazione: Option<string>, latitude: real, longitude: real): (a: Address)
    ensures a == ForeignAddress(location, citta, siglaNazione).(geoLocation := a.geoLocation)
    ensures a.geoLocation.Some? && a.geoLocation.value.latitude == latitude && a.geoLocation.value.longitude == longitude
  {
    var city := DomesticCity(citta, Some(ForeignProvince)).(country := Some(CountryWithCode(siglaNazione)));
    NewAddress().(location := location, city := Some(city), geoLocation := Some(NewGeoLocation(latitude, longitude)))
  }

  // ---------------------------------------------------------------
  // Contact
  // ---------------------------------------------------------------

  /** Display order a contact gets when none is given. */
  const DefaultOrder: int := 100

  /** `new Contact()`: type `None`, null value, default order. */
  function NewContact(): (c: Contact)
    ensures c.value.None? && c.order == DefaultOrder
  {
    Contact(0, NoContactType, None, DefaultOrder, 0)
  }

  /** `new Contact(email)`: an e-mail contact placed first. */
  function EmailContact(email: Option<string>): (c: Contact)
    ensures c.contactType == Email && c.value == email && c.order == 1
  {
    NewContact().(contactType := Email, value := email, order := 1)
  }

  /** `new Contact(type, value, order)`. */
  function TypedContact(contactType: ContactType, value: Option<string>, order: int): (c: Contact)
    ensures c.contactType == contactType && c.value == value && c.order == order
  {
    NewContact().(contactType := contactType, value := value, order := order)
  }

  // ---------------------------------------------------------------
  // Company
  // ---------------------------------------------------------------

  /** `new Company()`: every reference null. */
  function NewCompany(): Company {
    Company(0, None, None, None, None, None, None)
  }

  /** `new Company(name, address, contact)`: exactly one address and one contact. */
  function CompanyWith(name: Option<string>, address: Address, contact: Contact): (c: Company)
    ensures c.name == name
    ensures c.addresses == Some([address]) && c.contacts == Some([contact])
    ensures c.products.None? && c.partitaIva.None? && c.codiceFiscale.None?
  {
    NewCompany().(name := name, addresses := Some([address]), contacts := Some([contact]))
  }

  // ---------------------------------------------------------------
  // Product
  // ---------------------------------------------------------------

  /** `new ProductCategory(name)`: the description keeps its null initialiser. */
  function CategoryNamed(name: Option<string>): ProductCategory {
    ProductCategory(0, name, None)
  }

  /** `new Product()`: every reference null, quantity 0. */
  function NewProduct(): Product {
    Product(0, None, None, 0, None, None, 0, None)
  }

  /** `new Product(name, quantity, price, category)` with a category object. */
  function ProductInCategory(name: Option<string>, quantity: int, price: Money, category: ProductCategory): (p: Product)
    ensures p.name == name && p.quantity == quantity && p.price == Some(price)
    ensures p.category == Some(category)
    ensures p.description.None? && p.photos.None? && p.id == 0 && p.companyId == 0
  {
    NewProduct().(name := name, quantity := quantity, price := Some(price), category := Some(category))
  }

  /** `new Product(name, quantity, price, category)` with a category name: a fresh category of that name. */
  function ProductInNamedCategory(name: Option<string>, quantity: int, price: Money, category: Option<string>): (p: Product)
    ensures p == ProductInCategory(name, quantity, price, CategoryNamed(category))
    ensures p.category.Some? && p.category.value.name == category
  {
    NewProduct().(name := name, quantity := quantity, price := Some(price), category := Some(CategoryNamed(category)))
  }
}
