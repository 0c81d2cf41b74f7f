/** The product lifecycle manager: creation under an existing category,
    paginated listing, attribute value assignment through the validator with
    an upsert keyed by (product, attribute), the activation gate on required
    attributes, and unguarded update and removal. */
module Products {
  import opened Entities
  import opened Ordering
  import opened Store
  import opened Validator

  /** A product with its stored attribute values, in attribute creation order. */
  datatype ProductDetail = ProductDetail(product: Product, values: seq<ValueRecord>)

  /** One page of `findAll` with its pagination metadata. */
  datatype ProductPage = ProductPage(
    data: seq<Product>,
    page: int,
    limit: int,
    total: nat,
    totalPages: nat)

  // ---------------------------------------------------------------- reads

  /** The optional filters of `findAll`: an absent filter matches anything. */
  predicate Matches(p: Product, categoryId: Option<Id>, status: Option<Status>)
  {
    (categoryId.None? || p.categoryId == categoryId.value) &&
    (status.None? || p.status == status.value)
  }

  /** The products the filters select, by id. */
  function Selected(products: map<Id, Product>, categoryId: Option<Id>, status: Option<Status>): (r: map<Id, Product>)
    ensures forall k :: k in r <==> k in products && Matches(products[k], categoryId, status)
    ensures forall k :: k in r ==> r[k] == products[k]
  {
    map k | k in products && Matches(products[k], categoryId, status) :: products[k]
  }

  /** Every matching product, once, newest first. */
  function Matching(c: Catalog, categoryId: Option<Id>, status: Option<Status>): (r: seq<Product>)
    requires KeyedById(c)
    ensures |r| == |Selected(c.products, categoryId, status)|
    ensures forall p :: p in r <==> p in c.products.Values && Matches(p, categoryId, status)
    ensures forall i, j :: 0 <= i < j < |r| ==> r[i].id > r[j].id
  {
    assert Where(c.products, p => Matches(p, categoryId, status)) == Selected(c.products, categoryId, status);
    RowsWhereNewestFirst(c.products, c.nextId, p => Matches(p, categoryId, status), (p: Product) => p.id)
  }

  /** `Math.ceil(total / limit)`. */
  function PageCount(total: nat, limit: int): (q: nat)
    requires limit >= 1
    ensures (q - 1) * limit < total <= q * limit
  {
    var q := (total + limit - 1) / limit;
    assert q * limit <= total + limit - 1 < (q + 1) * limit;
    q
  }

  /** `(page - 1) * limit`: the number of rows a page skips. */
  function Offset(page: int, limit: int): (skip: nat)
    requires page >= 1 && limit >= 1
    ensures skip == (page - 1) * limit
  {
    assert (page - 1) * limit >= 0 by {
      assert page - 1 >= 0 && limit >= 0;
    }
    (page - 1) * limit
  }

  /** One page of `rows`: skip `(page - 1) * limit` of them and take at most
      `limit`; total and totalPages describe all of `rows`. */
  function Paginate(rows: seq<Product>, page: int, limit: int): (r: ProductPage)
    requires page >= 1 && limit >= 1
    ensures r.page == page && r.limit == limit && r.total == |rows|
    ensures r.totalPages == PageCount(|rows|, limit)
    ensures |r.data| <= limit
    ensures forall p :: p in r.data ==> p in rows
    ensures var skip := Offset(page, limit);
            && |r.data| == (if skip >= |rows| then 0 else Min(limit, |rows| - skip))
            && forall i :: 0 <= i < |r.data| ==> r.data[i] == rows[skip + i]
  {
    var data := Window(rows, Offset(page, limit), limit);
    assert forall i :: 0 <= i < |data| ==> data[i] in rows;
    ProductPage(data, page, limit, |rows|, PageCount(|rows|, limit))
  }

  /** Paging covers the rows: row `j` is at position `j % limit` of page
      `j / limit + 1`, and that page is within totalPages. */
  lemma EveryRowOnItsPage(rows: seq<Product>, limit: int, j: int)
    requires limit >= 1 && 0 <= j < |rows|
    ensures var r := Paginate(rows, j / limit + 1, limit);
            && j % limit < |r.data| && r.data[j % limit] == rows[j]
            && j / limit + 1 <= r.totalPages
  {
    var page, offset := j / limit + 1, j % limit;
    var skip := (page - 1) * limit;
    assert skip + offset == j;
    var r := Paginate(rows, page, limit);
    assert skip < |rows|;
    assert offset < Min(limit, |rows| - skip);
    assert r.data[offset] == rows[skip + offset];
    assert (page - 1) * limit <= j < |rows| <= r.totalPages * limit;
    LessByFactor(page - 1, r.totalPages, limit);
  }

  lemma LessByFactor(a: int, b: int, c: int)
    requires c >= 1 && a * c < b * c
    ensures a < b
  {
    assert a * c - b * c == (a - b) * c;
  }

  /** `findAll`: the requested page of the matching products, newest first. */
  function FindAll(db: Db, page: int := 1, limit: int := 20, categoryId: Option<Id> := None,
                   status: Option<Status> := None): (r: ProductPage)
    reads db
    requires db.Valid() && page >= 1 && limit >= 1
    ensures r.total == |Selected(db.products, categoryId, status)|
    ensures forall p :: p in r.data ==> p in db.products.Values && Matches(p, categoryId, status)
    ensures r == Paginate(Matching(db.Contents(), categoryId, status), page, limit)
  {
    Paginate(Matching(db.Contents(), categoryId, status), page, limit)
  }

  /** The stored values of product `id`, each once, in attribute creation
      order. */
  function ValuesOf(c: Catalog, id: Id): (r: seq<ValueRecord>)
    requires ValuesConsistent(c) && KeyedById(c)
    ensures forall a :: (id, a) in c.values ==> c.values[(id, a)] in r
    ensures forall v :: v in r ==> (id, v.attributeId) in c.values && c.values[(id, v.attributeId)] == v
    ensures forall i, j :: 0 <= i < j < |r| ==> r[i].attributeId < r[j].attributeId
  {
    RowsUnder(c.values, id, IdsOf(c.attributes, c.nextId), (v: ValueRecord) => v.attributeId)
  }

  function FindOne(db: Db, id: Id): (r: Result<ProductDetail>)
    reads db
    requires db.Valid()
    ensures r.Ok? <==> id in db.products
    ensures r.Err? ==> r.error == NotFound
    ensures r.Ok? ==> r.value.product == db.products[id]
    ensures r.Ok? ==> forall a :: (id, a) in db.values ==> db.values[(id, a)] in r.value.values
    ensures r.Ok? ==> forall v :: v in r.value.values ==>
      (id, v.attributeId) in db.values && db.values[(id, v.attributeId)] == v
    ensures r.Ok? ==> forall i, j :: 0 <= i < j < |r.value.values| ==>
      r.value.values[i].attributeId < r.value.values[j].attributeId
  {
    if id in db.products then Ok(ProductDetail(db.products[id], ValuesOf(db.Contents(), id)))
    else Err(NotFound)
  }

  // ------------------------------------------------------- value assignment

  /** A request field as the validator sees it: undefined when left out,
      null when sent as null. */
  function RawOf<T>(slot: Slot<T>, wrap: T -> Raw): Raw
  {
    match slot
    case Omitted => Undefined
    case JsonNull => Null
    case Given(v) => wrap(v)
  }

  /** The value handed to the validator: the request's slot for the
      attribute's data type; null for ENUM. */
  function RawFor(t: DataType, req: SetValueRequest): Raw
  {
    match t
    case Text => RawOf(req.valueText, (s: string) => Str(s))
    case Number => RawOf(req.valueNumber, (n: real) => Num(n))
    case Boolean => RawOf(req.valueBool, (b: bool) => Bool(b))
    case Date => RawOf(req.valueDate, (s: string) => Str(s))
    case Enum => Null
  }

  /** The record the upsert writes: the slot of the attribute's data type
      from the request, every other slot null. A date is stored parsed. */
  function RecordFor(js: Builtins, a: Attribute, req: SetValueRequest): ValueRecord
  {
    ValueRecord(
      req.productId,
      req.attributeId,
      if a.dataType == Text then Column(req.valueText) else None,
      if a.dataType == Number then Column(req.valueNumber) else None,
      if a.dataType == Boolean then Column(req.valueBool) else None,
      if a.dataType == Date && req.valueDate.Given? then ParseDate(js, Str(req.valueDate.value)) else None,
      if a.dataType == Enum then req.optionId else None)
  }

  /** A value the validator accepts is written with no slot but the one of
      the attribute's data type populated, holding what the request sent.
      That slot is populated unless a NUMBER value was sent as null, which
      `Number(null)` lets through as 0 and the upsert writes as null. */
  lemma AcceptedRecordShape(js: Builtins, a: Attribute, req: SetValueRequest,
                            options: map<Id, AttributeOption>)
    requires Validate(js, a, RawFor(a.dataType, req), req.optionId, options).Accepted?
    ensures var v := RecordFor(js, a, req);
      && Fits(v, a.dataType)
      && (OnlySlot(v, a.dataType) <==> !(a.dataType == Number && req.valueNumber.JsonNull?))
      && (a.dataType == Text ==> req.valueText.Given? && v.valueText == Some(req.valueText.value))
      && (a.dataType == Number ==> v.valueNumber == Column(req.valueNumber))
      && (a.dataType == Boolean ==> req.valueBool.Given? && v.valueBool == Some(req.valueBool.value))
      && (a.dataType == Date ==> req.valueDate.Given? && v.valueDate == ParseDate(js, RawFor(Date, req)))
      && (a.dataType == Enum ==> v.optionId == req.optionId && req.optionId.value in options
                                 && options[req.optionId.value].attributeId == a.id)
  {
  }

  /** A null NUMBER value is checked as 0: when the bounds admit 0 it is
      accepted, and the record written populates no slot at all. */
  lemma NullNumberWritesEmptyRecord(js: Builtins, a: Attribute, req: SetValueRequest,
                                    options: map<Id, AttributeOption>)
    requires a.dataType == Number && req.valueNumber == JsonNull
    requires (a.minNumber.None? || a.minNumber.value <= 0.0) && (a.maxNumber.None? || 0.0 <= a.maxNumber.value)
    ensures Validate(js, a, RawFor(a.dataType, req), req.optionId, options).Accepted?
    ensures RecordFor(js, a, req) == ValueRecord(req.productId, req.attributeId, None, None, None, None, None)
  {
  }

  /** The answer `setAttributeValue` gives on store `c`: the product must
      exist, the attribute must exist and belong to the product's category,
      and the validator must accept the value; the record written then
      populates no slot but the one of the attribute's data type. */
  function SetOutcome(c: Catalog, js: Builtins, req: SetValueRequest): (r: Result<ValueRecord>)
    ensures req.productId !in c.products ==> r == Err(ProductMissing)
    ensures req.productId in c.products &&
            (req.attributeId !in c.attributes ||
             c.attributes[req.attributeId].categoryId != c.products[req.productId].categoryId)
            ==> r == Err(AttributeNotInCategory)
    ensures r.Ok? ==>
      && req.productId in c.products && req.attributeId in c.attributes
      && c.attributes[req.attributeId].categoryId == c.products[req.productId].categoryId
      && r.value.productId == req.productId && r.value.attributeId == req.attributeId
      && Fits(r.value, c.attributes[req.attributeId].dataType)
    ensures req.productId in c.products && req.attributeId in c.attributes &&
            c.attributes[req.attributeId].categoryId == c.products[req.productId].categoryId ==>
      var a := c.attributes[req.attributeId];
      && (r.Ok? <==> Acceptable(js, a, RawFor(a.dataType, req), req.optionId, c.options))
      && (r.Ok? ==> r.value == RecordFor(js, a, req))
      && (r.Err? ==> r.error.Invalid? && ReportedBy(r.error.violation, a.dataType))
  {
    if req.productId !in c.products then Err(ProductMissing)
    else if req.attributeId !in c.attributes
         || c.attributes[req.attributeId].categoryId != c.products[req.productId].categoryId then
      Err(AttributeNotInCategory)
    else
      var a := c.attributes[req.attributeId];
      var verdict := Validate(js, a, RawFor(a.dataType, req), req.optionId, c.options);
      if verdict.Rejected? then Err(Invalid(verdict.why))
      else
        AcceptedRecordShape(js, a, req, c.options);
        Ok(RecordFor(js, a, req))
  }

  /** `setAttributeValue`: the upsert of one (product, attribute) value. */
  method SetAttributeValue(db: Db, js: Builtins, req: SetValueRequest) returns (r: Result<ValueRecord>)
    requires db.Valid()
    modifies db
    ensures db.Valid()
    ensures r == SetOutcome(old(db.Contents()), js, req)
    ensures r.Ok? ==>
      db.Contents() == old(db.Contents()).(values := old(db.values)[(req.productId, req.attributeId) := r.value])
    ensures r.Err? ==> db.Contents() == old(db.Contents())
  {
    r := SetOutcome(db.Contents(), js, req);
    if r.Ok? {
      AcceptedKeepsConsistent(db.Contents(), js, req);
      db.values := db.values[(req.productId, req.attributeId) := r.value];
    }
  }

  /** A null NUMBER value the bounds admit as 0 is written as a record with
      no slot populated, and that record fills the attribute for the
      activation gate. */
  lemma NullNumberCountsAsFilled(c: Catalog, js: Builtins, req: SetValueRequest)
    requires KeyedById(c)
    requires req.productId in c.products && req.attributeId in c.attributes
    requires c.attributes[req.attributeId].categoryId == c.products[req.productId].categoryId
    requires c.attributes[req.attributeId].dataType == Number && req.valueNumber == JsonNull
    requires var a := c.attributes[req.attributeId];
      (a.minNumber.None? || a.minNumber.value <= 0.0) && (a.maxNumber.None? || 0.0 <= a.maxNumber.value)
    ensures SetOutcome(c, js, req) == Ok(ValueRecord(req.productId, req.attributeId, None, None, None, None, None))
    ensures var after := c.(values := c.values[(req.productId, req.attributeId) := SetOutcome(c, js, req).value]);
      !Unfilled(after, c.products[req.productId], c.attributes[req.attributeId])
  {
    NullNumberWritesEmptyRecord(js, c.attributes[req.attributeId], req, c.options);
  }

  /** Writing an accepted record keeps the store consistent. */
  lemma AcceptedKeepsConsistent(c: Catalog, js: Builtins, req: SetValueRequest)
    requires Consistent(c) && SetOutcome(c, js, req).Ok?
    ensures Consistent(c.(values := c.values[(req.productId, req.attributeId) := SetOutcome(c, js, req).value]))
  {
    var a := c.attributes[req.attributeId];
    AcceptedRecordShape(js, a, req, c.options);
  }

  /** The answer does not depend on the values already stored: a second
      upsert of the same request is decided exactly like the first. */
  lemma OutcomeIgnoresValues(c: Catalog, values: map<Key, ValueRecord>, js: Builtins, req: SetValueRequest)
    ensures SetOutcome(c.(values := values), js, req) == SetOutcome(c, js, req)
  {
  }

  /** The upsert is idempotent: the same request made twice gives the same
      answer and leaves the store as the first call left it. */
  method SetAttributeValueTwice(db: Db, js: Builtins, req: SetValueRequest)
    returns (first: Result<ValueRecord>, second: Result<ValueRecord>, afterFirst: Catalog)
    requires db.Valid()
    modifies db
    ensures first == second
    ensures db.Contents() == afterFirst
  {
    ghost var before := db.Contents();
    first := SetAttributeValue(db, js, req);
    afterFirst := db.Contents();
    assert afterFirst == before.(values := afterFirst.values);
    OutcomeIgnoresValues(before, afterFirst.values, js, req);
    second := SetAttributeValue(db, js, req);
    assert second == first;
    if first.Ok? {
      assert afterFirst.values[(req.productId, req.attributeId) := first.value] == afterFirst.values;
    }
  }

  // ------------------------------------------------------------ activation

  /** The required attributes of the product's category that have no stored
      value for the product, in creation order. */
  function MissingFor(c: Catalog, p: Product): (r: seq<Attribute>)
    requires KeyedById(c)
    ensures forall a :: a in r ==> a.id in c.attributes && c.attributes[a.id] == a && Unfilled(c, p, a)
    ensures forall k :: k in c.attributes && Unfilled(c, p, c.attributes[k]) ==> c.attributes[k] in r
    ensures InIdOrder(r)
  {
    var ids := IdsOf(c.attributes, c.nextId);
    MissingAmongSound(c, p, ids);
    MissingAmongComplete(c, p, ids);
    MissingAmongOrdered(c, p, ids);
    MissingAmong(c, p, ids)
  }

  /** The attributes stored under `ids` that the product misses, in the
      order of `ids`. */
  function MissingAmong(c: Catalog, p: Product, ids: seq<Id>): seq<Attribute>
    requires forall k :: k in ids ==> k in c.attributes
  {
    if ids == [] then []
    else
      var a := c.attributes[ids[0]];
      (if Unfilled(c, p, a) then [a] else []) + MissingAmong(c, p, ids[1..])
  }

  /** Everything `MissingAmong` returns is a stored, unfilled attribute whose
      id is not below the first of `ids`. */
  lemma {:induction false} MissingAmongSound(c: Catalog, p: Product, ids: seq<Id>)
    requires KeyedById(c) && Increasing(ids)
    requires forall k :: k in ids ==> k in c.attributes
    ensures forall a :: a in MissingAmong(c, p, ids) ==>
      && a.id in c.attributes && c.attributes[a.id] == a && Unfilled(c, p, a)
      && ids[0] <= a.id
  {
    if ids != [] {
      var a := c.attributes[ids[0]];
      var rest := MissingAmong(c, p, ids[1..]);
      MissingAmongSound(c, p, ids[1..]);
      assert |ids| > 1 ==> ids[0] < ids[1];
      assert MissingAmong(c, p, ids) == (if Unfilled(c, p, a) then [a] else []) + rest;
    }
  }

  /** Every unfilled attribute under `ids` is returned. */
  lemma {:induction false} MissingAmongComplete(c: Catalog, p: Product, ids: seq<Id>)
    requires forall k :: k in ids ==> k in c.attributes
    ensures forall k :: k in ids && Unfilled(c, p, c.attributes[k]) ==> c.attributes[k] in MissingAmong(c, p, ids)
  {
    if ids != [] {
      assert ids == [ids[0]] + ids[1..];
      MissingAmongComplete(c, p, ids[1..]);
    }
  }

  /** With `ids` increasing, the result is in strictly increasing id order. */
  lemma {:induction false} MissingAmongOrdered(c: Catalog, p: Product, ids: seq<Id>)
    requires KeyedById(c) && Increasing(ids)
    requires forall k :: k in ids ==> k in c.attributes
    ensures InIdOrder(MissingAmong(c, p, ids))
  {
    if ids != [] {
      var rest := MissingAmong(c, p, ids[1..]);
      MissingAmongOrdered(c, p, ids[1..]);
      if |ids| > 1 {
        MissingAmongSound(c, p, ids[1..]);
        assert ids[0] < ids[1];
        assert forall j :: 0 <= j < |rest| ==> rest[j] in rest;
      }
      var a := c.attributes[ids[0]];
      assert MissingAmong(c, p, ids) == (if Unfilled(c, p, a) then [a] else []) + rest;
    }
  }

  /** Strictly increasing ids: each attribute once, oldest first. */
  predicate InIdOrder(attrs: seq<Attribute>)
  {
    forall i, j :: 0 <= i < j < |attrs| ==> attrs[i].id < attrs[j].id
  }

  /** A required attribute of the product's category with no value for it. */
  predicate Unfilled(c: Catalog, p: Product, a: Attribute)
  {
    a.categoryId == p.categoryId && a.isRequired && (p.id, a.id) !in c.values
  }

  function Names(attrs: seq<Attribute>): (r: seq<string>)
    ensures |r| == |attrs| && forall i :: 0 <= i < |r| ==> r[i] == attrs[i].name
  {
    if attrs == [] then [] else [attrs[0].name] + Names(attrs[1..])
  }

  /** The gate: nothing is missing exactly when every required attribute of
      the product's category has a stored value for the product. */
  lemma GateOpenIffComplete(c: Catalog, p: Product)
    requires KeyedById(c)
    ensures MissingFor(c, p) == [] <==>
      forall k :: (k in c.attributes && c.attributes[k].categoryId == p.categoryId
                   && c.attributes[k].isRequired) ==> (p.id, k) in c.values
  {
    var missing := MissingFor(c, p);
    if missing != [] {
      assert missing[0] in missing;
    }
    if !forall k :: (k in c.attributes && c.attributes[k].categoryId == p.categoryId
                     && c.attributes[k].isRequired) ==> (p.id, k) in c.values {
      var k :| k in c.attributes && c.attributes[k].categoryId == p.categoryId
               && c.attributes[k].isRequired && (p.id, k) !in c.values;
      assert c.attributes[k] in missing;
    }
  }

  /** The status write of `activate`. */
  method MarkActive(db: Db, id: Id) returns (activated: Product)
    requires db.Valid() && id in db.products
    modifies db
    ensures db.Valid()
    ensures activated == old(db.products)[id].(status := Active)
    ensures db.Contents() == old(db.Contents()).(products := old(db.products)[id := activated])
  {
    activated := db.products[id].(status := Active);
    PutProductKeepsConsistent(db.Contents(), activated);
    db.products := db.products[id := activated];
  }

  method Activate(db: Db, id: Id) returns (r: Result<Product>)
    requires db.Valid()
    modifies db
    ensures db.Valid()
    ensures id !in old(db.products) ==> r == Err(NotFound)
    ensures id in old(db.products) ==>
      var p := old(db.products)[id];
      var missing := MissingFor(old(db.Contents()), p);
      && (r.Ok? <==> missing == [])
      && (r.Err? ==> r == Err(MissingRequired(Names(missing))))
      && (r.Ok? ==> r.value == p.(status := Active))
    ensures r.Ok? ==> db.Contents() == old(db.Contents()).(products := old(db.products)[id := r.value])
    ensures r.Err? ==> db.Contents() == old(db.Contents())
  {
    if id !in db.products {
      return Err(NotFound);
    }
    var missing := MissingFor(db.Contents(), db.products[id]);
    if |missing| > 0 {
      return Err(MissingRequired(Names(missing)));
    }
    var activated := MarkActive(db, id);
    r := Ok(activated);
  }

  // ------------------------------------------------------ product records

  function ProductFrom(id: Id, dto: NewProduct): Product
  {
    Product(id, dto.name, dto.sku, dto.description, dto.price, dto.stockQuantity,
            dto.status, dto.categoryId, dto.isActive)
  }

  function Updated(p: Product, patch: ProductPatch): Product
  {
    p.(name := Patched(p.name, patch.name),
       sku := Patched(p.sku, patch.sku),
       description := Patched(p.description, patch.description),
       price := Patched(p.price, patch.price),
       stockQuantity := Patched(p.stockQuantity, patch.stockQuantity),
       status := Patched(p.status, patch.status),
       categoryId := Patched(p.categoryId, patch.categoryId),
       isActive := Patched(p.isActive, patch.isActive))
  }

  /** `update` writes status like any other field: no gate applies. */
  lemma UpdateBypassesGate(p: Product, s: Status)
    ensures Updated(p, ProductPatch(status := Set(s))) == p.(status := s)
  {
  }

  method Create(db: Db, dto: NewProduct) returns (r: Result<Product>)
    requires db.Valid()
    modifies db
    ensures db.Valid()
    ensures r.Err? <==> dto.categoryId !in old(db.categories)
    ensures r.Err? ==> r.error == CategoryMissing && db.Contents() == old(db.Contents())
    ensures r.Ok? ==>
      && r.value == ProductFrom(old(db.nextId), dto)
      && r.value.id !in old(db.products)
      && db.Contents() == old(db.Contents()).(
           products := old(db.products)[r.value.id := r.value],
           nextId := old(db.nextId) + 1)
  {
    if dto.categoryId !in db.categories {
      return Err(CategoryMissing);
    }
    var p := ProductFrom(db.nextId, dto);
    db.products := db.products[p.id := p];
    db.nextId := db.nextId + 1;
    r := Ok(p);
  }

  method Update(db: Db, id: Id, patch: ProductPatch) returns (r: Result<Product>)
    requires db.Valid()
    modifies db
    ensures db.Valid()
    ensures r.Err? <==> id !in old(db.products)
    ensures r.Err? ==> r.error == NotFound && db.Contents() == old(db.Contents())
    ensures r.Ok? ==>
      && r.value == Updated(old(db.products)[id], patch)
      && db.Contents() == old(db.Contents()).(products := old(db.products)[id := r.value])
  {
    if id !in db.products {
      return Err(NotFound);
    }
    var p := Updated(db.products[id], patch);
    db.products := db.products[id := p];
    r := Ok(p);
  }

  method Remove(db: Db, id: Id) returns (r: Result<Product>)
    requires db.Valid()
    modifies db
    ensures db.Valid()
    ensures r.Err? <==> id !in old(db.products)
    ensures r.Err? ==> r.error == NotFound && db.Contents() == old(db.Contents())
    ensures r.Ok? ==>
      && r.value == old(db.products)[id]
      && db.Contents() == old(db.Contents()).(products := old(db.products) - {id})
  {
    if id !in db.products {
      return Err(NotFound);
    }
    r := Ok(db.products[id]);
    db.products := db.products - {id};
  }
}
