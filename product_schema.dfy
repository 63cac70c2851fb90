/**
 * The product creation form (`createProductSchema`) as a validator: one
 * predicate per field, `trigger(fields)` as the conjunction over a set of
 * fields, and the parsed value with the `status` default applied.
 */
module ProductSchema {
  import opened Wrappers
  import opened JsNumber

  datatype ProductStatus = Active | Inactive | Draft

  function StatusName(s: ProductStatus): string
  {
    match s
    case Active => "active"
    case Inactive => "inactive"
    case Draft => "draft"
  }

  /** `z.enum(['active', 'inactive', 'draft'])`. */
  function ParseStatus(s: string): (r: Option<ProductStatus>)
    ensures r.Some? ==> StatusName(r.value) == s
  {
    if s == "active" then Some(Active)
    else if s == "inactive" then Some(Inactive)
    else if s == "draft" then Some(Draft)
    else None
  }

  /** Every enum member parses back from its name. */
  lemma ParseStatusName(s: ProductStatus)
    ensures ParseStatus(StatusName(s)) == Some(s)
  {
  }

  /** The form values as react-hook-form holds them; `None` is an absent field. */
  datatype ProductForm = ProductForm(
    name: string,
    sku: string,
    category: string,
    description: Option<string>,
    price: Num,
    stock: Num,
    status: Option<string>,
    image: Option<string>)

  datatype Field = Name | Sku | Category | Description | Price | Stock | Status | Image

  /** The fields the "Basic Information" step validates. */
  const BasicFields: set<Field> := {Name, Sku, Category}
  /** The fields the "Inventory & Pricing" step validates. */
  const InventoryFields: set<Field> := {Price, Stock, Status}
  const AllFields: set<Field> := {Name, Sku, Category, Description, Price, Stock, Status, Image}

  /**
   * One field's rule. `isUrl` stands for zod's URL check (the platform's URL
   * parser), which the model does not reimplement.
   */
  predicate FieldValid(f: ProductForm, field: Field, isUrl: string -> bool)
  {
    match field
    case Name => |f.name| >= 1
    case Sku => |f.sku| >= 1
    case Category => |f.category| >= 1
    case Description => true
    case Price => f.price.AtLeast(0.0)
    case Stock => f.stock.AtLeast(0.0)
    case Status => f.status.None? || ParseStatus(f.status.value).Some?
    case Image => f.image.None? || isUrl(f.image.value)
  }

  /** `trigger(fields)`: the schema restricted to the given fields. */
  predicate FieldsValid(f: ProductForm, fields: set<Field>, isUrl: string -> bool)
  {
    forall field :: field in fields ==> FieldValid(f, field, isUrl)
  }

  /** `trigger()` with no argument: the whole schema. */
  predicate Valid(f: ProductForm, isUrl: string -> bool)
  {
    FieldsValid(f, AllFields, isUrl)
  }

  /** A product as the schema outputs it. */
  datatype ProductData = ProductData(
    name: string,
    sku: string,
    category: string,
    description: Option<string>,
    price: real,
    stock: real,
    status: ProductStatus,
    image: Option<string>)

  /** The schema's parse: the validated values with `status` defaulted to `active`. */
  function Parse(f: ProductForm, isUrl: string -> bool): (r: Option<ProductData>)
    ensures r.Some? <==> Valid(f, isUrl)
    ensures r.Some? ==>
      && r.value.name == f.name && r.value.sku == f.sku && r.value.category == f.category
      && r.value.description == f.description && r.value.image == f.image
      && f.price == Number(r.value.price) && f.stock == Number(r.value.stock)
      && (f.status.None? ==> r.value.status == Active)
      && (f.status.Some? ==> StatusName(r.value.status) == f.status.value)
  {
    if Valid(f, isUrl) then
      assert FieldValid(f, Price, isUrl) && FieldValid(f, Stock, isUrl) && FieldValid(f, Status, isUrl);
      Some(ProductData(f.name, f.sku, f.category, f.description, f.price.value, f.stock.value,
                       if f.status.None? then Active else ParseStatus(f.status.value).value, f.image))
    else None
  }

  /** What the schema guarantees of every product it accepts. */
  predicate WellFormed(p: ProductData)
  {
    p.name != [] && p.sku != [] && p.category != [] && p.price >= 0.0 && p.stock >= 0.0
  }

  lemma ParseWellFormed(f: ProductForm, isUrl: string -> bool)
    requires Valid(f, isUrl)
    ensures Parse(f, isUrl).Some? && WellFormed(Parse(f, isUrl).value)
  {
    assert FieldValid(f, Name, isUrl) && FieldValid(f, Sku, isUrl) && FieldValid(f, Category, isUrl);
  }

  /** Stock need only be a number at least 0: a fractional stock is accepted. */
  lemma FractionalStockAccepted(f: ProductForm, isUrl: string -> bool)
    requires f.stock == Number(0.5)
    ensures FieldValid(f, Stock, isUrl)
  {
  }

  /** An image that is present must pass the URL check, even when it is the empty string. */
  lemma EmptyImageIsPresent(f: ProductForm, isUrl: string -> bool)
    requires f.image == Some("") && !isUrl("")
    ensures !FieldValid(f, Image, isUrl) && !Valid(f, isUrl)
  {
    assert Image in AllFields;
  }

  /** The form's starting values (the provider's `defaultValues`). */
  const DefaultForm: ProductForm :=
    ProductForm("", "", "", Some(""), Number(0.0), Number(0.0), Some("active"), Some(""))

  /** A product record as the list views receive it from the backend; `status` is an unchecked string. */
  datatype Product = Product(
    id: string,
    createdAt: int,
    name: string,
    sku: string,
    category: string,
    price: real,
    stock: real,
    description: Option<string>,
    image: Option<string>,
    status: string)
}
