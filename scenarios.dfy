/** The seeded Dresses category run through the three services on a fresh
    store: its required Size (ENUM, XS to XL) and Color (TEXT, at most 50
    characters) attributes gate activation, and its Length attribute
    (NUMBER, 20 to 60) checks its bounds. */
module Scenarios {
  import opened Entities
  import opened Ordering
  import opened Store
  import opened Validator
  import Categories
  import Attributes
  import Products

  const DressesDto := NewCategory("Dresses", "dresses", Some("Women's dresses and formal wear"))
  const SizeDto := NewAttribute(0, "Size", "size", Enum, isRequired := true, displayOrder := 1)
  const ColorDto := NewAttribute(0, "Color", "color", Text, isRequired := true, displayOrder := 2,
                                 maxLength := Some(50))
  const LengthDto := NewAttribute(0, "Length (inches)", "length", Number, displayOrder := 3,
                                  minNumber := Given(20.0), maxNumber := Given(60.0))
  const DressDto := NewProduct("Evening Dress", "DR-001", 129.0, 0)

  const Dresses := Category(0, "Dresses", "dresses", Some("Women's dresses and formal wear"), None, true)
  const Size := Attribute(1, 0, "Size", "size", Enum, true, 1, None, None, None, None, None)
  const Color := Attribute(2, 0, "Color", "color", Text, true, 2, None, None, None, Some(50), None)
  const Length := Attribute(3, 0, "Length (inches)", "length", Number, false, 3, Some(20.0), Some(60.0),
                            None, None, None)
  const Dress := Product(9, "Evening Dress", "DR-001", None, 129.0, 0, Draft, 0, true)

  /** The five sizes, options 4 to 8 of attribute 1. */
  function SizeOption(id: Id, value: string, code: string, sortOrder: int, isDefault: bool): AttributeOption
  {
    AttributeOption(id, 1, value, Some(code), sortOrder, isDefault)
  }

  /** The store once the Dresses category is seeded. */
  const Seeded := Catalog(
    map[0 := Dresses],
    map[1 := Size, 2 := Color, 3 := Length],
    map[4 := SizeOption(4, "XS", "xs", 1, false), 5 := SizeOption(5, "S", "s", 2, false),
        6 := SizeOption(6, "M", "m", 3, true), 7 := SizeOption(7, "L", "l", 4, false),
        8 := SizeOption(8, "XL", "xl", 5, false)],
    map[], map[], 9)

  /** The seeded store with the new dress, product 9, in it. */
  const WithDress := Seeded.(products := map[9 := Dress], nextId := 10)

  const SetSize := SetValueRequest(9, 1, optionId := Some(6))
  const SetColor := SetValueRequest(9, 2, valueText := Given("Red"))

  /** Three increasing ids between 1 and 3 are 1, 2 and 3. */
  lemma OneTwoThree(ids: seq<Id>)
    requires |ids| == 3 && Increasing(ids) && forall k :: k in ids ==> 1 <= k <= 3
    ensures ids == [1, 2, 3]
  {
    assert ids[0] in ids && ids[2] in ids;
    assert ids[0] < ids[1] < ids[2];
  }

  /** A table holding ids 1, 2 and 3 lists them in that order. */
  lemma IdsOneTwoThree<V>(m: map<Id, V>, n: nat, x: V, y: V, z: V)
    requires m == map[1 := x, 2 := y, 3 := z] && n >= 4
    ensures IdsOf(m, n) == [1, 2, 3]
  {
    assert (forall k :: k in m <==> 1 <= k <= 3) && |m| == 3;
    OneTwoThree(IdsOf(m, n));
  }

  /** Of three attributes, the first two unfilled and the third not, the
      first two are missing. */
  lemma FirstTwoAmong(c: Catalog, p: Product, x: Attribute, y: Attribute, z: Attribute)
    requires c.attributes == map[1 := x, 2 := y, 3 := z]
    requires Products.Unfilled(c, p, x) && Products.Unfilled(c, p, y) && !Products.Unfilled(c, p, z)
    ensures Products.MissingAmong(c, p, [1, 2, 3]) == [x, y]
  {
    var ids: seq<Id> := [1, 2, 3];
    assert ids[1..] == [2, 3] && ids[1..][1..] == [3] && ids[1..][1..][1..] == [];
    assert Products.MissingAmong(c, p, [3]) == [];
    assert Products.MissingAmong(c, p, [2, 3]) == [y];
  }

  lemma FirstTwoMissing(c: Catalog, p: Product, x: Attribute, y: Attribute, z: Attribute)
    requires KeyedById(c) && c.attributes == map[1 := x, 2 := y, 3 := z]
    requires Products.Unfilled(c, p, x) && Products.Unfilled(c, p, y) && !Products.Unfilled(c, p, z)
    ensures Products.MissingFor(c, p) == [x, y]
  {
    assert 3 in c.attributes;
    IdsOneTwoThree(c.attributes, c.nextId, x, y, z);
    FirstTwoAmong(c, p, x, y, z);
  }

  /** With Size and Color stored, the dress misses nothing. */
  lemma AllSetOnDress(c: Catalog)
    requires KeyedById(c) && c.attributes == Seeded.attributes
    requires (9, 1) in c.values && (9, 2) in c.values
    ensures Products.MissingFor(c, Dress) == []
  {
    Products.GateOpenIffComplete(c, Dress);
  }

  /** The Dresses category alone. */
  method SeedCategory(db: Db)
    requires db.Valid() && db.Contents() == Catalog(map[], map[], map[], map[], map[], 0)
    modifies db
    ensures db.Valid() && db.Contents() == Seeded.(attributes := map[], options := map[], nextId := 1)
  {
    var c := Categories.Create(db, DressesDto);
  }

  /** Its Size, Color and Length attributes. */
  method SeedAttributes(db: Db)
    requires db.Valid() && db.Contents() == Seeded.(attributes := map[], options := map[], nextId := 1)
    modifies db
    ensures db.Valid() && db.Contents() == Seeded.(options := map[], nextId := 4)
  {
    var a := Attributes.CreateAttribute(db, SizeDto);
    a := Attributes.CreateAttribute(db, ColorDto);
    a := Attributes.CreateAttribute(db, LengthDto);
  }

  const SmallSizes := map[4 := SizeOption(4, "XS", "xs", 1, false), 5 := SizeOption(5, "S", "s", 2, false),
                          6 := SizeOption(6, "M", "m", 3, true)]

  /** The sizes XS, S and M of attribute 1. */
  method SeedSmallSizes(db: Db)
    requires db.Valid() && db.Contents() == Seeded.(options := map[], nextId := 4)
    modifies db
    ensures db.Valid() && db.Contents() == Seeded.(options := SmallSizes, nextId := 7)
  {
    var o := Attributes.CreateOption(db, NewOption(1, "XS", Some("xs"), 1));
    o := Attributes.CreateOption(db, NewOption(1, "S", Some("s"), 2));
    o := Attributes.CreateOption(db, NewOption(1, "M", Some("m"), 3, true));
  }

  /** Then L and XL. */
  method SeedLargeSizes(db: Db)
    requires db.Valid() && db.Contents() == Seeded.(options := SmallSizes, nextId := 7)
    modifies db
    ensures db.Valid() && db.Contents() == Seeded
  {
    var o := Attributes.CreateOption(db, NewOption(1, "L", Some("l"), 4));
    o := Attributes.CreateOption(db, NewOption(1, "XL", Some("xl"), 5));
  }

  /** A fresh store with the seeded Dresses category. */
  method SeedDresses() returns (db: Db)
    ensures fresh(db) && db.Valid() && db.Contents() == Seeded
  {
    db := new Db();
    SeedCategory(db);
    SeedAttributes(db);
    SeedSmallSizes(db);
    SeedLargeSizes(db);
  }

  /** A fresh store with the seeded category and the new dress. */
  method SeedDress() returns (db: Db)
    ensures fresh(db) && db.Valid() && db.Contents() == WithDress
  {
    db := SeedDresses();
    var p := Products.Create(db, DressDto);
  }

  /** A new dress cannot be activated while Size and Color have no value. */
  method ActivationBlocked() returns (before: Result<Product>)
    ensures before == Err(MissingRequired(["Size", "Color"]))
  {
    var db := SeedDress();
    FirstTwoMissing(db.Contents(), Dress, Size, Color, Length);
    assert Products.Names([Size, Color]) == ["Size", "Color"];
    before := Products.Activate(db, 9);
  }

  const SizeM := ValueRecord(9, 1, None, None, None, None, Some(6))
  const ColorRed := ValueRecord(9, 2, Some("Red"), None, None, None, None)

  lemma SizeAccepted(js: Builtins)
    ensures Products.SetOutcome(WithDress, js, SetSize) == Ok(SizeM)
  {
  }

  lemma ColorAccepted(js: Builtins)
    ensures Products.SetOutcome(WithDress.(values := map[(9, 1) := SizeM]), js, SetColor) == Ok(ColorRed)
  {
  }

  /** Size M is accepted for the new dress and stored. */
  method SetSizeOnDress(js: Builtins) returns (db: Db, sizeSet: Result<ValueRecord>)
    ensures fresh(db) && db.Valid()
    ensures sizeSet == Ok(SizeM)
    ensures db.Contents() == WithDress.(values := map[(9, 1) := SizeM])
  {
    db := SeedDress();
    SizeAccepted(js);
    sizeSet := Products.SetAttributeValue(db, js, SetSize);
  }

  /** Then Color "Red" is accepted and stored beside it. */
  method FillDress(js: Builtins) returns (db: Db, sizeSet: Result<ValueRecord>, colorSet: Result<ValueRecord>)
    ensures fresh(db) && db.Valid()
    ensures sizeSet == Ok(SizeM) && colorSet == Ok(ColorRed)
    ensures db.Contents() == WithDress.(values := map[(9, 1) := SizeM, (9, 2) := ColorRed])
  {
    db, sizeSet := SetSizeOnDress(js);
    ColorAccepted(js);
    colorSet := Products.SetAttributeValue(db, js, SetColor);
  }

  /** Once Size is set to M and Color to "Red", the dress can be activated,
      and becomes ACTIVE. */
  method ActivationAllowed(js: Builtins) returns (after: Result<Product>)
    ensures after == Ok(Dress.(status := Active))
  {
    var db, sizeSet, colorSet := FillDress(js);
    AllSetOnDress(db.Contents());
    after := Products.Activate(db, 9);
  }

  lemma LengthChecked(js: Builtins)
    ensures Products.SetOutcome(WithDress, js, SetValueRequest(9, 3, valueNumber := Given(15.0)))
            == Err(Invalid(BelowMinimum(20.0)))
    ensures Products.SetOutcome(WithDress, js, SetValueRequest(9, 3, valueNumber := Given(42.0)))
            == Ok(ValueRecord(9, 3, None, Some(42.0), None, None, None))
  {
  }

  /** Length accepts 42 inches and rejects 15 as below its minimum of 20. */
  method LengthBounds(js: Builtins) returns (tooShort: Result<ValueRecord>, inRange: Result<ValueRecord>)
    ensures tooShort == Err(Invalid(BelowMinimum(20.0)))
    ensures inRange == Ok(ValueRecord(9, 3, None, Some(42.0), None, None, None))
  {
    var db := SeedDress();
    LengthChecked(js);
    tooShort := Products.SetAttributeValue(db, js, SetValueRequest(9, 3, valueNumber := Given(15.0)));
    inRange := Products.SetAttributeValue(db, js, SetValueRequest(9, 3, valueNumber := Given(42.0)));
  }

  /** Options can only be defined on ENUM attributes: not on Color. */
  method NoOptionOnText() returns (textOption: Result<AttributeOption>)
    ensures textOption == Err(NotEnum)
  {
    var db := SeedDresses();
    textOption := Attributes.CreateOption(db, NewOption(2, "Red"));
  }

  /** A category cannot be made its own parent. */
  method NotOwnParent() returns (ownParent: Result<Category>)
    ensures ownParent == Err(SelfParent)
  {
    var db := SeedDresses();
    ownParent := Categories.Update(db, 0, CategoryPatch(parentId := Set(Some(0))));
  }

  /** Dresses cannot be removed once it has the child category Gowns. */
  method ParentStays() returns (gowns: Result<Category>, withChild: Result<Category>)
    ensures gowns.Ok? && gowns.value.parentId == Some(0)
    ensures withChild == Err(HasChildren)
  {
    var db := SeedDresses();
    gowns := Categories.Create(db, NewCategory("Gowns", "gowns", parentId := Some(0)));
    assert db.categories[9].parentId == Some(0);
    withChild := Categories.Remove(db, 0);
  }
}
