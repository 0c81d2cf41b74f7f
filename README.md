# EAV catalog core in Dafny

A model of the backend of an e-commerce catalog administration tool built on
an entity-attribute-value design. Categories form a tree. Each category owns
typed attribute definitions (TEXT, NUMBER, BOOLEAN, DATE, ENUM), ENUM
attributes own option sets, and products in a category carry at most one value
per attribute of that category. The three NestJS services are modelled:

- the **category tree manager** (`Categories`): creation with a parent check,
  update with parent and self-parent checks, deletion blocked by children or
  products, and the two reads;
- the **attribute schema registry and value validator** (`Attributes`,
  `Validator`): attribute creation with the NUMBER bounds check, options only
  on ENUM attributes, deletion locked while values use the attribute, the
  reads, and the five-way value decision;
- the **product lifecycle manager** (`Products`): creation under an existing
  category, the filtered and paginated listing, the value upsert keyed by
  (product, attribute), the activation gate on required attributes, and the
  unguarded update and removal.

The Prisma client is replaced by one in-memory store, the class `Store.Db`.
It holds a map per table keyed by id, the value table keyed by the pair
(productId, categoryAttributeId), and a counter `nextId` that hands out ids.
`Db.Valid()` is the store invariant, `Store.Consistent`:

- every record sits under its own id;
- every non-null parentId names another stored category;
- every value record refers to a stored attribute and populates no slot but the
  one of that attribute's data type. It populates exactly that slot, except for
  a NUMBER value sent as JSON null, whose record populates none;
- an option a value names belongs to the value's attribute.

Every state-changing operation is a method that `modifies db`. It keeps
`Valid()` and states its whole new state as an update of `old(db.Contents())`.
Every read is a function of the store.

Modules and files:

| file | module | contents |
|---|---|---|
| entities.dfy | `Entities` | records, request bodies with their defaults, error kinds |
| ordering.dfy | `Ordering` | id enumeration, filtering, sorting by a total order, windows |
| store.dfy | `Store` | the store class, its invariant, the generic `findMany` shapes |
| validator.dfy | `Validator` | the value decision over a tagged JavaScript value |
| categories.dfy | `Categories` | `categories.service.ts` |
| attributes.dfy | `Attributes` | `attributes.service.ts` |
| products.dfy | `Products` | `products.service.ts` |
| scenarios.dfy | `Scenarios` | the seeded Dresses category run through the services |

Conventions:

- Ids are naturals drawn from `nextId`, so creation order is id order.
- `orderBy: createdAt desc` is modelled as descending id.
- A read with no `orderBy` returns rows in ascending id order.
- A JavaScript value reaching the validator is a `Raw`: a string, a number (a
  real, never NaN), a boolean, null or undefined.
- The built-ins the validator calls are parameters of every operation that
  reaches it, gathered in a `Builtins` value: `RegExp.prototype.test`,
  `Date.parse` and `Number` on strings. They are left uninterpreted.

Behaviours of the services that the model keeps as written:

- TEXT patterns are tested with `RegExp.prototype.test`: a match anywhere in
  the string is enough.
- A `maxLength` of 0 means no limit, because the check is on truthiness.
  Likewise an empty `regex` means no pattern.
- `Date.parse` returning 0 (the epoch itself) is rejected, because the check
  is `!Date.parse(value)`.
- Neither the price nor the stock quantity is checked for being non-negative
  by `products.service.ts`.
- Request fields distinguish an omitted field, an explicit JSON null and a
  given value (`Entities.Slot`). A NUMBER value sent as null reaches the
  validator, where `Number(null)` is 0; when the bounds admit 0 it is accepted
  and the record written populates no slot, yet it fills the attribute for the
  activation gate. A NUMBER bound sent as null passes the `!== undefined` test
  of `createAttribute` and compares as 0, so a minimum of 5 with a null maximum
  is refused. `optionId` is only tested for truthiness, so there null and
  omitted are the same.

## Model

| member | source | states |
|---|---|---|
| Categories.Create | backend/src/categories/categories.service.ts:10-31 | fails with ParentMissing, store unchanged, exactly when a parentId is given and not stored; otherwise adds exactly one category under a fresh id carrying the request's fields, and nothing else changes; the store invariant is kept |
| Categories.FindAll | backend/src/categories/categories.service.ts:33-44 | every stored category exactly once (same count, same members), and every category's name is no greater than the names of all categories after it |
| Categories.ByNameTransitive | backend/src/categories/categories.service.ts:42 | the name order the listing sorts by is transitive |
| Categories.FindOne | backend/src/categories/categories.service.ts:46-74 | the stored category when the id is stored, NotFound exactly when it is not |
| Categories.Update | backend/src/categories/categories.service.ts:76-106 | NotFound for an absent id before any other check; with a non-null parentId, ParentMissing when the parent is absent, then SelfParent when it is the category itself; success exactly when neither applies, writing the patched category under its id and nothing else; failures leave the store unchanged |
| Categories.Remove | backend/src/categories/categories.service.ts:108-132 | NotFound, then HasChildren when some category names it as parent, then HasProducts when some product belongs to it; otherwise removes only that category and returns it |
| Categories.AddKeepsParentsClosed | backend/src/categories/categories.service.ts:12-19 | a new category whose parent is stored keeps every parentId pointing at another stored category |
| Categories.ReplaceKeepsParentsClosed | backend/src/categories/categories.service.ts:81-93 | an update whose new parent is stored and is not the category itself keeps the parent references closed |
| Categories.RemoveKeepsParentsClosed | backend/src/categories/categories.service.ts:111-118 | removing a category that no category names as parent keeps the parent references closed |
| Categories.TwoCycleAllowed | backend/src/categories/categories.service.ts:89-92 | the parent check is one level deep: with B a child of A, making A a child of B passes the check and writes the two-category cycle |
| Attributes.CreateAttribute | backend/src/attributes/attributes.service.ts:11-37 | CategoryMissing when the category is absent; then BoundsInverted exactly when the type is NUMBER, neither bound is omitted and min > max with a null bound read as 0; otherwise adds exactly one attribute under a fresh id with the request's fields, a null bound stored as no bound; failures leave the store unchanged |
| Attributes.CreateOption | backend/src/attributes/attributes.service.ts:39-57 | AttributeMissing when the attribute is absent, NotEnum when it is not ENUM; otherwise adds exactly one option under a fresh id and nothing else changes |
| Attributes.OptionsOf | backend/src/attributes/attributes.service.ts:63 | exactly the options whose attribute is the given one, each once (no two share an id), sorted by sortOrder ascending |
| Attributes.AttributesOf | backend/src/attributes/attributes.service.ts:60-66 | exactly the attributes whose categoryId matches, each once (no two share an id), sorted by displayOrder ascending |
| Attributes.FindAttributesByCategory | backend/src/attributes/attributes.service.ts:59-68 | (`ListsCategory`) every view is of a stored attribute of the category, every such attribute has a view, no attribute has two, the views are in displayOrder, and each carries that attribute's options (each once, in sortOrder) and its usage count; no check that the category exists and no error case |
| Attributes.FindAttribute | backend/src/attributes/attributes.service.ts:70-85 | the stored attribute with its options (each once, in sortOrder) and usage count when the id is stored, NotFound exactly when it is not |
| Attributes.NullBoundIsZero | backend/src/attributes/attributes.service.ts:21-27 | for a NUMBER attribute with a given minimum and a null maximum, the bounds are refused exactly when the minimum is positive |
| Attributes.ValidateAttributeValue | backend/src/attributes/attributes.service.ts:87-142 | NotFound for an absent attribute; success only with the value true, and exactly when the value is acceptable for the stored attribute; an unacceptable value for a stored attribute is a validator rejection whose reason belongs to the attribute's data type |
| Attributes.DeleteAttribute | backend/src/attributes/attributes.service.ts:144-159 | NotFound for an absent attribute, AttributeInUse when some value refers to it; otherwise removes only that attribute; failures leave the store unchanged |
| Validator.Validate | backend/src/attributes/attributes.service.ts:90-139 | accepts exactly the values the acceptance rules of the attribute's data type allow, and a rejection names a reason belonging to that data type |
| Validator.TextNeedsString | backend/src/attributes/attributes.service.ts:92-94 | a TEXT attribute rejects a non-string with NotAString, whatever else holds |
| Validator.TextLengthLimit | backend/src/attributes/attributes.service.ts:95-97 | with a non-zero maxLength L and no pattern, a string is accepted exactly when its length is at most L, and a longer one reports L |
| Validator.TextZeroLimitIsNoLimit | backend/src/attributes/attributes.service.ts:95-100 | with maxLength 0 or null, acceptance of a string depends only on the pattern |
| Validator.NumberBoundsInclusive | backend/src/attributes/attributes.service.ts:108-113 | with both bounds given, a number is accepted exactly when lo <= x <= hi; below lo reports the minimum, above hi the maximum |
| Validator.NumberNeedsValue | backend/src/attributes/attributes.service.ts:104-107 | a NUMBER attribute rejects a missing value as not a number |
| Validator.BooleanOnlyBooleans | backend/src/attributes/attributes.service.ts:116-120 | a BOOLEAN attribute accepts exactly the genuine booleans |
| Validator.DateEpochRejected | backend/src/attributes/attributes.service.ts:122-126 | a DATE value that parses to 0 is rejected |
| Validator.EnumIgnoresValue | backend/src/attributes/attributes.service.ts:128-138 | for an ENUM attribute the raw value plays no part in the decision |
| Products.Create | backend/src/products/products.service.ts:15-36 | fails with CategoryMissing, adding nothing, exactly when the category is absent; otherwise adds exactly one product under a fresh id |
| Products.Matching | backend/src/products/products.service.ts:40-56 | every product matching the optional category and status filters exactly once, newest first |
| Products.PageCount | backend/src/products/products.service.ts:65 | the ceiling of total / limit: the least q with total <= q * limit |
| Products.Paginate | backend/src/products/products.service.ts:39-66 | skips (page - 1) * limit rows and returns the following min(limit, rest) rows in order, never more than limit; total is the row count and totalPages its page count |
| Products.EveryRowOnItsPage | backend/src/products/products.service.ts:39-65 | row j appears at position j % limit of page j / limit + 1, and that page is within totalPages |
| Products.FindAll | backend/src/products/products.service.ts:38-67 | the requested page of the matching products newest first; every row matches the filters; total counts all matching products |
| Products.ValuesOf | backend/src/products/products.service.ts:82-87 | exactly the stored values of the product: each is listed, each listed one is the stored value under its key, and the list is strictly increasing in attribute id, so each value appears once |
| Products.FindOne | backend/src/products/products.service.ts:70-96 | NotFound exactly when the product is absent; otherwise the product with exactly its stored values, each once, in increasing attribute id |
| Products.AcceptedRecordShape | backend/src/products/products.service.ts:142-148 | a record built for an accepted value populates no slot but the one of the attribute's data type; it populates that one exactly unless a NUMBER value was sent as null; TEXT, BOOLEAN and DATE hold what the request sent, NUMBER holds the sent number or nothing, and an ENUM option belongs to the attribute |
| Products.NullNumberWritesEmptyRecord | backend/src/products/products.service.ts:124-148 | a NUMBER value sent as null, with bounds that admit 0, is accepted and builds a record with every slot empty |
| Products.SetOutcome | backend/src/products/products.service.ts:98-148 | ProductMissing for an absent product; then AttributeNotInCategory for an absent attribute or one from another category; then success exactly when the validator accepts, with the record built for that data type, which populates no other slot, and otherwise the validator's reason, which belongs to that data type |
| Products.NullNumberCountsAsFilled | backend/src/products/products.service.ts:142-188 | the slotless record a null NUMBER value writes still counts as a stored value for the activation gate |
| Products.SetAttributeValue | backend/src/products/products.service.ts:98-169 | answers as SetOutcome on the store before the call; on success writes the record under (productId, attributeId) and changes nothing else; on failure changes nothing; the invariant is kept |
| Products.AcceptedKeepsConsistent | backend/src/products/products.service.ts:142-163 | writing an accepted record keeps every value populating no slot but its attribute's and its option in its attribute |
| Products.OutcomeIgnoresValues | backend/src/products/products.service.ts:102-139 | the answer does not depend on the values already stored |
| Products.SetAttributeValueTwice | backend/src/products/products.service.ts:151-163 | the same request twice gives the same answer and leaves the store exactly as the first call left it |
| Products.MissingFor | backend/src/products/products.service.ts:175-188 | exactly the stored required attributes of the product's category with no stored value for the product, each once, oldest first |
| Products.MissingAmongSound | backend/src/products/products.service.ts:186-188 | everything the filter keeps is a stored, required, unfilled attribute of the category |
| Products.MissingAmongComplete | backend/src/products/products.service.ts:186-188 | every required attribute of the category without a value is kept |
| Products.MissingAmongOrdered | backend/src/products/products.service.ts:175-188 | the kept attributes are in strictly increasing id order |
| Products.GateOpenIffComplete | backend/src/products/products.service.ts:186-194 | nothing is missing exactly when every required attribute of the product's category has a stored value for the product |
| Products.Activate | backend/src/products/products.service.ts:171-209 | NotFound for an absent product; MissingRequired with exactly the missing attributes' names when some required value is absent; otherwise sets the status to ACTIVE, whatever it was, and changes nothing else |
| Products.Update | backend/src/products/products.service.ts:211-227 | NotFound exactly when the id is absent; otherwise writes the patched product, no other change |
| Products.UpdateBypassesGate | backend/src/products/products.service.ts:211-216 | update writes the status like any other field, with no activation gate |
| Products.Remove | backend/src/products/products.service.ts:229-235 | NotFound exactly when the id is absent; otherwise removes only that product |
| Store.PutProductKeepsConsistent | backend/src/products/products.service.ts:196-198 | rewriting a stored product under its id keeps the store invariant |
| Store.AddAttributeKeepsConsistent | backend/src/attributes/attributes.service.ts:29-36 | adding an attribute under a fresh id keeps the store invariant |
| Store.AddOptionKeepsConsistent | backend/src/attributes/attributes.service.ts:53-56 | adding an option under a fresh id keeps the store invariant |
| Store.RemoveAttributeKeepsConsistent | backend/src/attributes/attributes.service.ts:152-158 | removing an attribute no value refers to keeps the store invariant |
| Scenarios.ActivationBlocked | backend/prisma/seed.ts:26-47 | a new dress in the seeded Dresses category cannot be activated and the error names Size and Color |
| Scenarios.SizeAccepted | backend/prisma/seed.ts:63-71 | option M of Size is accepted for the dress and stored as an option-only record |
| Scenarios.ColorAccepted | backend/prisma/seed.ts:37-47 | "Red" is accepted for Color and stored as a text-only record |
| Scenarios.ActivationAllowed | backend/prisma/seed.ts:26-71 | with Size and Color set, activation succeeds and the dress becomes ACTIVE |
| Scenarios.LengthChecked | backend/prisma/seed.ts:49-60 | Length rejects 15 as below its minimum of 20 and stores 42 as a number-only record |
| Scenarios.LengthBounds | backend/prisma/seed.ts:49-60 | the same two answers through the value upsert on the seeded store |
| Scenarios.NoOptionOnText | backend/prisma/seed.ts:37-47 | an option on the TEXT attribute Color is refused with NotEnum |
| Scenarios.NotOwnParent | backend/prisma/seed.ts:7-14 | making Dresses its own parent is refused with SelfParent |
| Scenarios.ParentStays | backend/prisma/seed.ts:7-14 | a child category of Dresses can be created, after which Dresses cannot be removed |

## Left out

- HTTP controllers, module wiring and the frontend: routing and UI only. The
  `page = 1`, `limit = 20` controller defaults are the default parameters of
  `Products.FindAll`.
- Products.FindAll: requires page >= 1 and limit >= 1. A page below 1 makes
  Prisma refuse a negative skip, and a limit of 0 gives an infinite page count.
  Neither is a result the service defines.
- Prisma `include` shapes: related records, children and `_count` are not
  attached to the returned records. Only the options in sortOrder and the usage
  count of attribute reads are modelled.
- Categories.FindOne: returns the category record only, without its parent,
  children, attributes or latest ten products.
- Products.FindOne: returns the product with its stored values, without its
  category's attribute list.
- Products.ValuesOf: lists the values in attribute creation order. The order
  of an unordered relation read is not fixed by the source.
- Referential actions of the database schema, which is not part of this model.
  Removing a product leaves its value records in place, and category removal
  relies only on the service's own checks.
- No product-to-category invariant is stated, because product update does not
  re-check the categoryId it writes.
- Cycle detection beyond one level is absent from the source.
  `Categories.TwoCycleAllowed` exhibits the gap; no acyclicity invariant is
  claimed.
- `createdAt` timestamps: the clock is replaced by id order, newest = highest id.
- Database ids are strings; here they are naturals. Because of this, the falsy
  empty-string id that skips a `where` filter or a parent check has no
  counterpart.
- The `UpdateCategoryDto` shape is not part of this model. It is taken to be
  the creation body with every field optional.
- Explicit JSON null in the category, product and option bodies and in the
  attribute fields other than the NUMBER bounds: there an absent field and a
  null one are both `None`. The value fields of the upsert and the NUMBER
  bounds distinguish the two (see above).
- Regex syntax errors, which throw from `new RegExp`: the pattern test is an
  uninterpreted predicate.
- ECMAScript `Date.parse`, `new Date(...)` and `Number(string)`: uninterpreted
  parameters. Number values are reals, so NaN and floating-point rounding are
  not modelled.
- String length is the number of characters, not UTF-16 code units. Name order
  is lexicographic on characters, not the database's collation.
- Concurrency and the atomicity of the upsert: every operation runs alone on
  the store. Uniqueness per (product, attribute) comes from the map key.
- Error message texts: errors are kinds, plus the list of missing names for
  activation.
