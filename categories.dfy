/** The category tree manager: creation with a parent-existence check,
    update with parent and self-parent checks, deletion blocked while the
    category has children or products, and the reads. */
module Categories {
  import opened Entities
  import opened Ordering
  import opened Store

  /** The order of `findAll`: by name, ascending. */
  predicate ByName(a: Category, b: Category)
  {
    StrLe(a.name, b.name)
  }

  lemma ByNameTotal()
    ensures Total(ByName)
  {
    forall a: Category, b: Category ensures ByName(a, b) || ByName(b, a) {
      StrLeTotal(a.name, b.name);
    }
  }

  lemma ByNameTransitive()
    ensures Transitive(ByName)
  {
    forall a: Category, b: Category, c: Category | ByName(a, b) && ByName(b, c) ensures ByName(a, c) {
      StrLeTransitive(a.name, b.name, c.name);
    }
  }

  /** All categories, each once, ordered by name: every category comes no
      later than those after it. */
  function FindAll(db: Db): (r: seq<Category>)
    reads db
    requires db.Valid()
    ensures |r| == |db.categories|
    ensures forall c :: c in r <==> c in db.categories.Values
    ensures forall i, j :: 0 <= i < j < |r| ==> ByName(r[i], r[j])
  {
    ByNameTotal();
    ByNameTransitive();
    var rows := TableRows(db.categories, db.nextId);
    var sorted := SortBy(rows, ByName);
    assert forall c :: c in sorted <==> c in multiset(rows);
    assert forall i, j :: 0 <= i < j < |sorted| ==> ByName(sorted[i], sorted[j]) by {
      forall i, j | 0 <= i < j < |sorted| ensures ByName(sorted[i], sorted[j]) {
        SortedPairwise(sorted, ByName, i, j);
      }
    }
    sorted
  }

  function FindOne(db: Db, id: Id): (r: Result<Category>)
    reads db
    ensures r.Ok? <==> id in db.categories
    ensures r.Ok? ==> r.value == db.categories[id]
    ensures r.Err? ==> r.error == NotFound
  {
    if id in db.categories then Ok(db.categories[id]) else Err(NotFound)
  }

  /** A parentId change that `update` lets through: none, a detach, or an
      existing category other than the one being updated. */
  predicate ParentAllowed(categories: map<Id, Category>, id: Id, p: Patch<Option<Id>>)
  {
    p.Set? && p.value.Some? ==> p.value.value in categories && p.value.value != id
  }

  function Updated(c: Category, p: CategoryPatch): Category
  {
    c.(name := Patched(c.name, p.name),
       slug := Patched(c.slug, p.slug),
       description := Patched(c.description, p.description),
       parentId := Patched(c.parentId, p.parentId),
       isActive := Patched(c.isActive, p.isActive))
  }

  /** Some stored category names `id` as its parent. */
  predicate HasChild(categories: map<Id, Category>, id: Id)
  {
    exists k :: k in categories && categories[k].parentId == Some(id)
  }

  /** Some stored product belongs to category `id`. */
  predicate HasProduct(products: map<Id, Product>, id: Id)
  {
    exists k :: k in products && products[k].categoryId == id
  }

  method Create(db: Db, dto: NewCategory) returns (r: Result<Category>)
    requires db.Valid()
    modifies db
    ensures db.Valid()
    ensures r.Err? <==> dto.parentId.Some? && dto.parentId.value !in old(db.categories)
    ensures r.Err? ==> r.error == ParentMissing && db.Contents() == old(db.Contents())
    ensures r.Ok? ==>
      && r.value == Category(old(db.nextId), dto.name, dto.slug, dto.description,
                             dto.parentId, dto.isActive)
      && r.value.id !in old(db.categories)
      && db.Contents() == old(db.Contents()).(
           categories := old(db.categories)[r.value.id := r.value],
           nextId := old(db.nextId) + 1)
  {
    if dto.parentId.Some? && dto.parentId.value !in db.categories {
      return Err(ParentMissing);
    }
    var c := Category(db.nextId, dto.name, dto.slug, dto.description, dto.parentId, dto.isActive);
    AddKeepsParentsClosed(db.categories, c);
    db.categories := db.categories[c.id := c];
    db.nextId := db.nextId + 1;
    r := Ok(c);
  }

  method Update(db: Db, id: Id, patch: CategoryPatch) returns (r: Result<Category>)
    requires db.Valid()
    modifies db
    ensures db.Valid()
    ensures id !in old(db.categories) ==> r == Err(NotFound)
    ensures id in old(db.categories) && patch.parentId.Set? && patch.parentId.value.Some? ==>
      && (patch.parentId.value.value !in old(db.categories) ==> r == Err(ParentMissing))
      && (patch.parentId.value.value == id ==> r == Err(SelfParent))
    ensures r.Ok? <==> id in old(db.categories) && ParentAllowed(old(db.categories), id, patch.parentId)
    ensures r.Ok? ==>
      && r.value == Updated(old(db.categories)[id], patch)
      && db.Contents() == old(db.Contents()).(categories := old(db.categories)[id := r.value])
    ensures r.Err? ==> db.Contents() == old(db.Contents())
  {
    if id !in db.categories {
      return Err(NotFound);
    }
    if patch.parentId.Set? && patch.parentId.value.Some? {
      var parent := patch.parentId.value.value;
      if parent !in db.categories {
        return Err(ParentMissing);
      }
      if parent == id {
        return Err(SelfParent);
      }
    }
    var c := Updated(db.categories[id], patch);
    ReplaceKeepsParentsClosed(db.categories, id, c);
    db.categories := db.categories[id := c];
    r := Ok(c);
  }

  method Remove(db: Db, id: Id) returns (r: Result<Category>)
    requires db.Valid()
    modifies db
    ensures db.Valid()
    ensures id !in old(db.categories) ==> r == Err(NotFound)
    ensures id in old(db.categories) && HasChild(old(db.categories), id) ==> r == Err(HasChildren)
    ensures (id in old(db.categories) && !HasChild(old(db.categories), id)
             && HasProduct(old(db.products), id)) ==> r == Err(HasProducts)
    ensures r.Ok? <==> id in old(db.categories) && !HasChild(old(db.categories), id)
                       && !HasProduct(old(db.products), id)
    ensures r.Ok? ==>
      && r.value == old(db.categories)[id]
      && db.Contents() == old(db.Contents()).(categories := old(db.categories) - {id})
    ensures r.Err? ==> db.Contents() == old(db.Contents())
  {
    if id !in db.categories {
      return Err(NotFound);
    }
    var children := set k | k in db.categories && db.categories[k].parentId == Some(id);
    if |children| > 0 {
      return Err(HasChildren);
    }
    assert !HasChild(db.categories, id) by {
      forall k | k in db.categories ensures db.categories[k].parentId != Some(id) {
        assert k in children <==> db.categories[k].parentId == Some(id);
      }
    }
    var dependents := set k | k in db.products && db.products[k].categoryId == id;
    if |dependents| > 0 {
      assert HasProduct(db.products, id) by {
        var k :| k in dependents;
      }
      return Err(HasProducts);
    }
    assert !HasProduct(db.products, id) by {
      forall k | k in db.products ensures db.products[k].categoryId != id {
        assert k in dependents <==> db.products[k].categoryId == id;
      }
    }
    RemoveKeepsParentsClosed(db.categories, id);
    r := Ok(db.categories[id]);
    db.categories := db.categories - {id};
  }

  /** A new category whose parent, if any, is stored keeps the tree closed. */
  lemma AddKeepsParentsClosed(categories: map<Id, Category>, c: Category)
    requires ParentsClosed(categories) && c.id !in categories
    requires c.parentId.Some? ==> c.parentId.value in categories
    ensures ParentsClosed(categories[c.id := c])
  {
  }

  /** An update whose new parent, if any, is stored and not the category
      itself keeps the tree closed. */
  lemma ReplaceKeepsParentsClosed(categories: map<Id, Category>, id: Id, c: Category)
    requires ParentsClosed(categories) && id in categories
    requires c.parentId.Some? ==> c.parentId.value in categories && c.parentId.value != id
    ensures ParentsClosed(categories[id := c])
  {
  }

  /** Removing a category no one names as parent keeps the tree closed. */
  lemma RemoveKeepsParentsClosed(categories: map<Id, Category>, id: Id)
    requires ParentsClosed(categories) && !HasChild(categories, id)
    ensures ParentsClosed(categories - {id})
  {
  }

  /** The parent check is one level deep: with B a child of A, making A a
      child of B is allowed, which closes a two-category cycle. */
  lemma TwoCycleAllowed(a: Category, b: Category)
    requires a.id != b.id && b.parentId == Some(a.id)
    ensures var cats := map[a.id := a, b.id := b];
            ParentAllowed(cats, a.id, Set(Some(b.id))) &&
            Updated(a, CategoryPatch(parentId := Set(Some(b.id)))).parentId == Some(b.id)
  {
  }
}
