/** The attribute schema registry: attribute definitions per category,
    options on ENUM attributes, deletion locked while values use an
    attribute, the reads, and the service's entry into the validator. */
module Attributes {
  import opened Entities
  import opened Ordering
  import opened Store
  import opened Validator

  /** An attribute as the reads return it: with its options in sortOrder
      and the number of stored values that use it. */
  datatype AttributeView = AttributeView(
    attribute: Attribute,
    options: seq<AttributeOption>,
    usage: nat)

  predicate ByDisplayOrder(a: Attribute, b: Attribute)
  {
    a.displayOrder <= b.displayOrder
  }

  predicate BySortOrder(a: AttributeOption, b: AttributeOption)
  {
    a.sortOrder <= b.sortOrder
  }

  /** The number of stored values that refer to attribute `id`. */
  function UsageCount(values: map<Key, ValueRecord>, id: Id): nat
  {
    |set k | k in values && k.1 == id|
  }

  /** The options of attribute `id`, each once, ordered by sortOrder. */
  function OptionsOf(options: map<Id, AttributeOption>, nextId: nat, id: Id): (r: seq<AttributeOption>)
    requires forall k :: k in options ==> k < nextId && options[k].id == k
    ensures forall o :: o in r <==> o in options.Values && o.attributeId == id
    ensures forall i, j :: 0 <= i < j < |r| ==> r[i].id != r[j].id
    ensures SortedBy(r, BySortOrder)
  {
    SortedRowsWhere(options, nextId, (o: AttributeOption) => o.attributeId == id, BySortOrder,
                    (o: AttributeOption) => o.id)
  }

  function ViewOf(c: Catalog, a: Attribute): (v: AttributeView)
    requires KeyedById(c)
  {
    AttributeView(a, OptionsOf(c.options, c.nextId, a.id), UsageCount(c.values, a.id))
  }

  function ViewsOf(c: Catalog, attrs: seq<Attribute>): (r: seq<AttributeView>)
    requires KeyedById(c)
  {
    seq(|attrs|, i requires 0 <= i < |attrs| => ViewOf(c, attrs[i]))
  }

  /** The attribute definitions of a category, each once, ordered by
      displayOrder. */
  function AttributesOf(attributes: map<Id, Attribute>, nextId: nat, categoryId: Id): (r: seq<Attribute>)
    requires forall k :: k in attributes ==> k < nextId && attributes[k].id == k
    ensures forall a :: a in r <==> a in attributes.Values && a.categoryId == categoryId
    ensures forall i, j :: 0 <= i < j < |r| ==> r[i].id != r[j].id
    ensures SortedBy(r, ByDisplayOrder)
  {
    SortedRowsWhere(attributes, nextId, (a: Attribute) => a.categoryId == categoryId, ByDisplayOrder,
                    (a: Attribute) => a.id)
  }

  /** `r` lists the attributes of the category, each once and in
      displayOrder, each with its options in sortOrder and its usage count. */
  predicate ListsCategory(c: Catalog, categoryId: Id, r: seq<AttributeView>)
    requires KeyedById(c)
  {
    && (forall i :: 0 <= i < |r| ==>
          r[i].attribute in c.attributes.Values && r[i].attribute.categoryId == categoryId)
    && (forall a :: a in c.attributes.Values && a.categoryId == categoryId ==>
          exists i :: 0 <= i < |r| && r[i].attribute == a)
    && (forall i, j :: 0 <= i < j < |r| ==> r[i].attribute.id != r[j].attribute.id)
    && (forall i :: 0 < i < |r| ==> r[i - 1].attribute.displayOrder <= r[i].attribute.displayOrder)
    && (forall i :: 0 <= i < |r| ==> r[i] == ViewOf(c, r[i].attribute))
  }

  /** `findAttributesByCategory`: the category need not exist. */
  function FindAttributesByCategory(db: Db, categoryId: Id): (r: seq<AttributeView>)
    reads db
    requires db.Valid()
    ensures ListsCategory(db.Contents(), categoryId, r)
  {
    var c := db.Contents();
    var attrs := AttributesOf(c.attributes, c.nextId, categoryId);
    ViewsCover(c, attrs, categoryId);
    ViewsOf(c, attrs)
  }

  /** The views of a sorted, duplicate-free listing of the category's
      attributes list that category. */
  lemma ViewsCover(c: Catalog, attrs: seq<Attribute>, categoryId: Id)
    requires KeyedById(c)
    requires forall a :: a in attrs <==> a in c.attributes.Values && a.categoryId == categoryId
    requires forall i, j :: 0 <= i < j < |attrs| ==> attrs[i].id != attrs[j].id
    requires SortedBy(attrs, ByDisplayOrder)
    ensures ListsCategory(c, categoryId, ViewsOf(c, attrs))
  {
    var r := ViewsOf(c, attrs);
    ViewsFollow(c, attrs);
    forall a | a in c.attributes.Values && a.categoryId == categoryId
      ensures exists i :: 0 <= i < |r| && r[i].attribute == a
    {
      var i :| 0 <= i < |attrs| && attrs[i] == a;
      assert r[i].attribute == a;
    }
    assert forall i :: 0 <= i < |r| ==> attrs[i] in attrs;
  }

  /** The i-th view is the view of the i-th attribute. */
  lemma ViewsFollow(c: Catalog, attrs: seq<Attribute>)
    requires KeyedById(c)
    ensures var r := ViewsOf(c, attrs);
      && |r| == |attrs|
      && (forall i :: 0 <= i < |r| ==> r[i].attribute == attrs[i])
      && (forall i :: 0 <= i < |r| ==> r[i] == ViewOf(c, r[i].attribute))
  {
  }

  function FindAttribute(db: Db, id: Id): (r: Result<AttributeView>)
    reads db
    requires db.Valid()
    ensures r.Ok? <==> id in db.attributes
    ensures r.Ok? ==> r.value == ViewOf(db.Contents(), db.attributes[id])
    ensures r.Err? ==> r.error == NotFound
  {
    if id in db.attributes then Ok(ViewOf(db.Contents(), db.attributes[id])) else Err(NotFound)
  }

  /** A bound as JavaScript's `>` compares it: null counts as 0. */
  function Compared(bound: Slot<real>): real
  {
    if bound.Given? then bound.value else 0.0
  }

  /** The NUMBER bound check: neither bound left out (`!== undefined`, which
      an explicit null passes) and the lower above the upper. */
  predicate BoundsInvertedFor(dto: NewAttribute)
  {
    dto.dataType == Number && !dto.minNumber.Omitted? && !dto.maxNumber.Omitted?
    && Compared(dto.minNumber) > Compared(dto.maxNumber)
  }

  /** The bound check reads a null upper bound as 0: a positive lower bound
      with a null upper bound is refused, a non-positive one is not. */
  lemma NullBoundIsZero(dto: NewAttribute, lo: real)
    requires dto.dataType == Number && dto.minNumber == Given(lo) && dto.maxNumber == JsonNull
    ensures BoundsInvertedFor(dto) <==> lo > 0.0
  {
  }

  function AttributeFrom(id: Id, dto: NewAttribute): Attribute
  {
    Attribute(id, dto.categoryId, dto.name, dto.slug, dto.dataType, dto.isRequired,
              dto.displayOrder, Column(dto.minNumber), Column(dto.maxNumber), dto.regex, dto.maxLength,
              dto.hint)
  }

  function OptionFrom(id: Id, dto: NewOption): AttributeOption
  {
    AttributeOption(id, dto.attributeId, dto.value, dto.code, dto.sortOrder, dto.isDefault)
  }

  method CreateAttribute(db: Db, dto: NewAttribute) returns (r: Result<Attribute>)
    requires db.Valid()
    modifies db
    ensures db.Valid()
    ensures dto.categoryId !in old(db.categories) ==> r == Err(CategoryMissing)
    ensures dto.categoryId in old(db.categories) && BoundsInvertedFor(dto) ==> r == Err(BoundsInverted)
    ensures r.Ok? <==> dto.categoryId in old(db.categories) && !BoundsInvertedFor(dto)
    ensures r.Ok? ==>
      && r.value == AttributeFrom(old(db.nextId), dto)
      && r.value.id !in old(db.attributes)
      && db.Contents() == old(db.Contents()).(
           attributes := old(db.attributes)[r.value.id := r.value],
           nextId := old(db.nextId) + 1)
    ensures r.Err? ==> db.Contents() == old(db.Contents())
  {
    if dto.categoryId !in db.categories {
      return Err(CategoryMissing);
    }
    if dto.dataType == Number {
      if !dto.minNumber.Omitted? && !dto.maxNumber.Omitted? && Compared(dto.minNumber) > Compared(dto.maxNumber) {
        return Err(BoundsInverted);
      }
    }
    var a := AttributeFrom(db.nextId, dto);
    AddAttributeKeepsConsistent(db.Contents(), a);
    db.attributes := db.attributes[a.id := a];
    db.nextId := db.nextId + 1;
    r := Ok(a);
  }

  method CreateOption(db: Db, dto: NewOption) returns (r: Result<AttributeOption>)
    requires db.Valid()
    modifies db
    ensures db.Valid()
    ensures dto.attributeId !in old(db.attributes) ==> r == Err(AttributeMissing)
    ensures dto.attributeId in old(db.attributes) && old(db.attributes)[dto.attributeId].dataType != Enum
            ==> r == Err(NotEnum)
    ensures r.Ok? <==> dto.attributeId in old(db.attributes)
                       && old(db.attributes)[dto.attributeId].dataType == Enum
    ensures r.Ok? ==>
      && r.value == OptionFrom(old(db.nextId), dto)
      && r.value.id !in old(db.options)
      && db.Contents() == old(db.Contents()).(
           options := old(db.options)[r.value.id := r.value],
           nextId := old(db.nextId) + 1)
    ensures r.Err? ==> db.Contents() == old(db.Contents())
  {
    if dto.attributeId !in db.attributes {
      return Err(AttributeMissing);
    }
    if db.attributes[dto.attributeId].dataType != Enum {
      return Err(NotEnum);
    }
    var o := OptionFrom(db.nextId, dto);
    AddOptionKeepsConsistent(db.Contents(), o);
    db.options := db.options[o.id := o];
    db.nextId := db.nextId + 1;
    r := Ok(o);
  }

  /** `validateAttributeValue`: looks the attribute up, then applies the
      validator to it; true when the value is legal, an error otherwise. */
  function ValidateAttributeValue(db: Db, js: Builtins, attributeId: Id, value: Raw,
                                  optionId: Option<Id>): (r: Result<bool>)
    reads db
    ensures attributeId !in db.attributes ==> r == Err(NotFound)
    ensures r.Ok? ==> r.value
    ensures r.Ok? <==>
      (attributeId in db.attributes &&
       Acceptable(js, db.attributes[attributeId], value, optionId, db.options))
    ensures attributeId in db.attributes &&
            !Acceptable(js, db.attributes[attributeId], value, optionId, db.options) ==>
      r.Err? && r.error.Invalid? && ReportedBy(r.error.violation, db.attributes[attributeId].dataType)
  {
    if attributeId !in db.attributes then Err(NotFound)
    else
      match Validate(js, db.attributes[attributeId], value, optionId, db.options)
      case Accepted => Ok(true)
      case Rejected(why) => Err(Invalid(why))
  }

  method DeleteAttribute(db: Db, id: Id) returns (r: Result<Attribute>)
    requires db.Valid()
    modifies db
    ensures db.Valid()
    ensures id !in old(db.attributes) ==> r == Err(NotFound)
    ensures id in old(db.attributes) && (exists k :: k in old(db.values) && k.1 == id)
            ==> r == Err(AttributeInUse)
    ensures r.Ok? <==> id in old(db.attributes) && forall k :: k in old(db.values) ==> k.1 != id
    ensures r.Ok? ==>
      && r.value == old(db.attributes)[id]
      && db.Contents() == old(db.Contents()).(attributes := old(db.attributes) - {id})
    ensures r.Err? ==> db.Contents() == old(db.Contents())
  {
    if id !in db.attributes {
      return Err(NotFound);
    }
    var inUse := set k | k in db.values && k.1 == id;
    if |inUse| > 0 {
      var k :| k in inUse;
      return Err(AttributeInUse);
    }
    assert forall k :: k in db.values ==> k.1 != id by {
      forall k | k in db.values ensures k.1 != id {
        assert k in inUse <==> k.1 == id;
      }
    }
    RemoveAttributeKeepsConsistent(db.Contents(), id);
    r := Ok(db.attributes[id]);
    db.attributes := db.attributes - {id};
  }
}
