/** Records of the catalog: categories, attribute definitions, options,
    products and attribute values, the request shapes the services accept,
    and the error kinds they raise. */
module Entities {

  datatype Option<+T> = None | Some(value: T)

  datatype Result<+T> = Ok(value: T) | Err(error: Error)

  /** Database-generated identifiers, abstracted to naturals. */
  type Id = nat

  /** The unique key of an attribute value: (productId, categoryAttributeId). */
  type Key = (Id, Id)

  datatype DataType = Text | Number | Boolean | Date | Enum

  datatype Status = Draft | Active | Inactive

  datatype Category = Category(
    id: Id,
    name: string,
    slug: string,
    description: Option<string>,
    parentId: Option<Id>,
    isActive: bool)

  datatype Attribute = Attribute(
    id: Id,
    categoryId: Id,
    name: string,
    slug: string,
    dataType: DataType,
    isRequired: bool,
    displayOrder: int,
    minNumber: Option<real>,
    maxNumber: Option<real>,
    regex: Option<string>,
    maxLength: Option<int>,
    hint: Option<string>)

  datatype AttributeOption = AttributeOption(
    id: Id,
    attributeId: Id,
    value: string,
    code: Option<string>,
    sortOrder: int,
    isDefault: bool)

  datatype Product = Product(
    id: Id,
    name: string,
    sku: string,
    description: Option<string>,
    price: real,
    stockQuantity: int,
    status: Status,
    categoryId: Id,
    isActive: bool)

  /** One stored value of one attribute for one product; the five slots are
      nullable and the one matching the attribute's data type is populated.
      A date is kept as milliseconds since the epoch. */
  datatype ValueRecord = ValueRecord(
    productId: Id,
    attributeId: Id,
    valueText: Option<string>,
    valueNumber: Option<real>,
    valueBool: Option<bool>,
    valueDate: Option<int>,
    optionId: Option<Id>)

  /** Why a candidate value was rejected by the validator. */
  datatype Violation =
    | NotAString
    | TooLong(maxLength: int)
    | PatternMismatch
    | NotANumber
    | BelowMinimum(minNumber: real)
    | AboveMaximum(maxNumber: real)
    | NotABoolean
    | NotADate
    | OptionRequired
    | InvalidOption

  /** The failures the services raise, one per distinct exception. */
  datatype Error =
    | NotFound                         // the targeted record is absent
    | CategoryMissing                  // referenced category is absent
    | ParentMissing                    // referenced parent category is absent
    | SelfParent                       // a category named as its own parent
    | HasChildren                      // category deletion with child categories
    | HasProducts                      // category deletion with products
    | BoundsInverted                   // NUMBER attribute with minNumber > maxNumber
    | AttributeMissing                 // option for an absent attribute
    | NotEnum                          // option for a non-ENUM attribute
    | AttributeInUse                   // attribute deletion while values use it
    | ProductMissing                   // value for an absent product
    | AttributeNotInCategory           // value for an absent or foreign attribute
    | Invalid(violation: Violation)    // value rejected by the validator
    | MissingRequired(names: seq<string>) // activation with required attributes unset

  /** An optional request field as JSON delivers it: left out, an explicit
      null, or a value. Both of the first two pass an `@IsOptional` check. */
  datatype Slot<T> = Omitted | JsonNull | Given(value: T)

  /** What a nullable column receives from a request field: null unless a
      value was given. */
  function Column<T>(s: Slot<T>): Option<T>
  {
    if s.Given? then Some(s.value) else None
  }

  /** A field of a partial update: left as it is, or overwritten. */
  datatype Patch<T> = Keep | Set(value: T)

  function Patched<T>(current: T, p: Patch<T>): T
  {
    match p
    case Keep => current
    case Set(v) => v
  }

  /** The body of a category creation; `isActive` defaults to true. */
  datatype NewCategory = NewCategory(
    name: string,
    slug: string,
    description: Option<string> := None,
    parentId: Option<Id> := None,
    isActive: bool := true)

  /** The body of a category update: every field optional. */
  datatype CategoryPatch = CategoryPatch(
    name: Patch<string> := Keep,
    slug: Patch<string> := Keep,
    description: Patch<Option<string>> := Keep,
    parentId: Patch<Option<Id>> := Keep,
    isActive: Patch<bool> := Keep)

  /** The body of an attribute definition; `isRequired` defaults to false and
      `displayOrder` to 0. */
  datatype NewAttribute = NewAttribute(
    categoryId: Id,
    name: string,
    slug: string,
    dataType: DataType,
    isRequired: bool := false,
    displayOrder: int := 0,
    minNumber: Slot<real> := Omitted,
    maxNumber: Slot<real> := Omitted,
    regex: Option<string> := None,
    maxLength: Option<int> := None,
    hint: Option<string> := None)

  /** The body of an option creation; `sortOrder` defaults to 0 and
      `isDefault` to false. */
  datatype NewOption = NewOption(
    attributeId: Id,
    value: string,
    code: Option<string> := None,
    sortOrder: int := 0,
    isDefault: bool := false)

  /** The body of a product creation; `stockQuantity` defaults to 0, `status`
      to DRAFT and `isActive` to true. */
  datatype NewProduct = NewProduct(
    name: string,
    sku: string,
    price: real,
    categoryId: Id,
    description: Option<string> := None,
    stockQuantity: int := 0,
    status: Status := Draft,
    isActive: bool := true)

  /** The body of a product update: every field optional, status included. */
  datatype ProductPatch = ProductPatch(
    name: Patch<string> := Keep,
    sku: Patch<string> := Keep,
    description: Patch<Option<string>> := Keep,
    price: Patch<real> := Keep,
    stockQuantity: Patch<int> := Keep,
    status: Patch<Status> := Keep,
    categoryId: Patch<Id> := Keep,
    isActive: Patch<bool> := Keep)

  /** The body of a value assignment: one optional slot per data type. The
      service tests `optionId` only for truthiness, so a null and a missing
      optionId are both `None`. */
  datatype SetValueRequest = SetValueRequest(
    productId: Id,
    attributeId: Id,
    valueText: Slot<string> := Omitted,
    valueNumber: Slot<real> := Omitted,
    valueBool: Slot<bool> := Omitted,
    valueDate: Slot<string> := Omitted,
    optionId: Option<Id> := None)

  /** The number of slots of a value record that are populated. */
  function FilledSlots(v: ValueRecord): nat
  {
    (if v.valueText.Some? then 1 else 0) + (if v.valueNumber.Some? then 1 else 0)
    + (if v.valueBool.Some? then 1 else 0) + (if v.valueDate.Some? then 1 else 0)
    + (if v.optionId.Some? then 1 else 0)
  }

  /** The record has exactly one slot populated, the one `t` selects. */
  /** The shape a written record has: exactly the slot `t` selects, or, for
      a NUMBER value sent as an explicit null, no slot at all. No slot of
      another data type is ever populated. */
  predicate Fits(v: ValueRecord, t: DataType)
  {
    OnlySlot(v, t) || (t == Number && FilledSlots(v) == 0)
  }

  predicate OnlySlot(v: ValueRecord, t: DataType)
  {
    FilledSlots(v) == 1 &&
    match t
    case Text => v.valueText.Some?
    case Number => v.valueNumber.Some?
    case Boolean => v.valueBool.Some?
    case Date => v.valueDate.Some?
    case Enum => v.optionId.Some?
  }
}
