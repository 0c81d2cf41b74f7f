/** The persistence the three services share, as one in-memory store: a
    table per record kind keyed by id, the attribute values keyed by
    (productId, categoryAttributeId), and the counter that hands out ids. */
module Store {
  import opened Entities
  import opened Ordering

  /** The whole stored state at one moment. */
  datatype Catalog = Catalog(
    categories: map<Id, Category>,
    attributes: map<Id, Attribute>,
    options: map<Id, AttributeOption>,
    products: map<Id, Product>,
    values: map<Key, ValueRecord>,
    nextId: nat)

  /** Each record is stored under its own id, and every id was handed out. */
  ghost predicate KeyedById(c: Catalog)
  {
    && (forall k :: k in c.categories ==> c.categories[k].id == k && k < c.nextId)
    && (forall k :: k in c.attributes ==> c.attributes[k].id == k && k < c.nextId)
    && (forall k :: k in c.options ==> c.options[k].id == k && k < c.nextId)
    && (forall k :: k in c.products ==> c.products[k].id == k && k < c.nextId)
  }

  /** Every non-null parentId names a stored category other than the
      category itself. */
  ghost predicate ParentsClosed(categories: map<Id, Category>)
  {
    forall k :: k in categories && categories[k].parentId.Some? ==>
      categories[k].parentId.value in categories && categories[k].parentId.value != k
  }

  /** Every stored value record sits under its own (product, attribute) key,
      refers to a stored attribute, populates no slot but the one of that
      attribute's data type, and an option it names belongs to that
      attribute. */
  ghost predicate ValuesConsistent(c: Catalog)
  {
    forall k :: k in c.values ==>
      && c.values[k].productId == k.0
      && c.values[k].attributeId == k.1
      && k.1 in c.attributes
      && Fits(c.values[k], c.attributes[k.1].dataType)
      && (c.values[k].optionId.Some? ==>
            c.values[k].optionId.value in c.options &&
            c.options[c.values[k].optionId.value].attributeId == k.1)
  }

  ghost predicate Consistent(c: Catalog)
  {
    KeyedById(c) && ParentsClosed(c.categories) && ValuesConsistent(c)
  }

  class Db {
    var categories: map<Id, Category>
    var attributes: map<Id, Attribute>
    var options: map<Id, AttributeOption>
    var products: map<Id, Product>
    var values: map<Key, ValueRecord>
    var nextId: nat

    function Contents(): Catalog
      reads this
    {
      Catalog(categories, attributes, options, products, values, nextId)
    }

    ghost predicate Valid()
      reads this
    {
      Consistent(Contents())
    }

    constructor ()
      ensures Valid()
      ensures Contents() == Catalog(map[], map[], map[], map[], map[], 0)
    {
      categories, attributes, options, products := map[], map[], map[], map[];
      values, nextId := map[], 0;
    }
  }

  /** Storing a product under its own id keeps the store consistent. */
  lemma PutProductKeepsConsistent(c: Catalog, p: Product)
    requires Consistent(c) && p.id < c.nextId
    ensures Consistent(c.(products := c.products[p.id := p]))
  {
  }

  /** A new attribute under a fresh id keeps the store consistent. */
  lemma AddAttributeKeepsConsistent(c: Catalog, a: Attribute)
    requires Consistent(c) && a.id == c.nextId
    ensures Consistent(c.(attributes := c.attributes[a.id := a], nextId := c.nextId + 1))
  {
  }

  /** A new option under a fresh id keeps the store consistent. */
  lemma AddOptionKeepsConsistent(c: Catalog, o: AttributeOption)
    requires Consistent(c) && o.id == c.nextId
    ensures Consistent(c.(options := c.options[o.id := o], nextId := c.nextId + 1))
  {
  }

  /** Removing an attribute no stored value refers to keeps the store
      consistent. */
  lemma RemoveAttributeKeepsConsistent(c: Catalog, id: Id)
    requires Consistent(c) && forall k :: k in c.values ==> k.1 != id
    ensures Consistent(c.(attributes := c.attributes - {id}))
  {
  }

  /** The ids of one table, in creation order. */
  function IdsOf<V>(m: map<Id, V>, nextId: nat): (r: seq<Id>)
    requires forall k :: k in m ==> k < nextId
    ensures forall k :: k in r <==> k in m
    ensures |r| == |m|
    ensures Increasing(r)
  {
    AscendingCount(m.Keys, nextId);
    assert Below(m.Keys, nextId) == m.Keys;
    Ascending(m.Keys, nextId)
  }

  /** The ids of one table, newest first. */
  function IdsNewestFirst<V>(m: map<Id, V>, nextId: nat): (r: seq<Id>)
    requires forall k :: k in m ==> k < nextId
    ensures forall k :: k in r <==> k in m
    ensures |r| == |m|
    ensures Decreasing(r)
  {
    DescendingCount(m.Keys, nextId);
    assert Below(m.Keys, nextId) == m.Keys;
    Descending(m.Keys, nextId)
  }

  /** The records of one table, in creation order: every stored record, once. */
  function TableRows<V(!new,==)>(m: map<Id, V>, nextId: nat): (r: seq<V>)
    requires forall k :: k in m ==> k < nextId
    ensures |r| == |m|
    ensures forall v :: v in r <==> v in m.Values
  {
    var ids := IdsOf(m, nextId);
    RowsAreValues(m, ids);
    Rows(m, ids)
  }

  /** The part of a table whose records satisfy `p`: what `where` selects. */
  function Where<V(!new,==)>(m: map<Id, V>, p: V -> bool): (r: map<Id, V>)
    ensures forall k :: k in r <==> k in m && p(m[k])
    ensures forall k :: k in r ==> r[k] == m[k]
    ensures forall v :: v in r.Values <==> v in m.Values && p(v)
  {
    var r := map k | k in m && p(m[k]) :: m[k];
    assert forall v :: v in m.Values && p(v) ==> v in r.Values by {
      forall v | v in m.Values && p(v) ensures v in r.Values {
        var k :| k in m && m[k] == v;
        assert r[k] == v;
      }
    }
    r
  }

  /** The records of `m` satisfying `p`, newest first; `key` reads a
      record's id. */
  function RowsWhereNewestFirst<V(!new,==)>(m: map<Id, V>, nextId: nat, p: V -> bool, key: V -> Id): (r: seq<V>)
    requires forall k :: k in m ==> k < nextId && key(m[k]) == k
    ensures |r| == |Where(m, p)|
    ensures forall v :: v in r <==> v in m.Values && p(v)
    ensures forall i, j :: 0 <= i < j < |r| ==> key(r[i]) > key(r[j])
  {
    var sub := Where(m, p);
    var ids := IdsNewestFirst(sub, nextId);
    RowsAreValues(sub, ids);
    KeysDecreasing(sub, ids, key);
    Rows(sub, ids)
  }

  /** The rows under newest-first ids are newest first. */
  lemma KeysDecreasing<V>(m: map<Id, V>, ids: seq<Id>, key: V -> Id)
    requires forall k :: k in m ==> key(m[k]) == k
    requires forall k :: k in ids ==> k in m
    requires Decreasing(ids)
    ensures var r := Rows(m, ids); forall i, j :: 0 <= i < j < |r| ==> key(r[i]) > key(r[j])
  {
    var r := Rows(m, ids);
    forall i | 0 <= i < |r| ensures key(r[i]) == ids[i] {
      assert ids[i] in ids;
    }
  }

  /** The records of `m` satisfying `p`, each once, ordered by `le`: a
      `findMany` with `where` and `orderBy`; `key` reads a record's id. */
  function SortedRowsWhere<V(!new,==)>(m: map<Id, V>, nextId: nat, p: V -> bool, le: (V, V) -> bool,
                                       key: V -> Id): (r: seq<V>)
    requires forall k :: k in m ==> k < nextId && key(m[k]) == k
    requires Total(le)
    ensures forall v :: v in r <==> v in m.Values && p(v)
    ensures forall i, j :: 0 <= i < j < |r| ==> key(r[i]) != key(r[j])
    ensures SortedBy(r, le)
  {
    var ids := IdsOf(m, nextId);
    var rows := TableRows(m, nextId);
    RowsDistinct(m, ids, key);
    var mine := Filter(rows, p);
    FilterDistinct(rows, p);
    var sorted := SortBy(mine, le);
    PermutationDistinct(mine, sorted);
    assert forall v :: v in sorted <==> v in multiset(mine);
    DistinctKeys(m, sorted, key);
    sorted
  }

  /** The rows under increasing ids of records keyed by id are all different. */
  lemma RowsDistinct<V>(m: map<Id, V>, ids: seq<Id>, key: V -> Id)
    requires forall k :: k in m ==> key(m[k]) == k
    requires forall k :: k in ids ==> k in m
    requires Increasing(ids)
    ensures Distinct(Rows(m, ids))
  {
    var r := Rows(m, ids);
    forall i | 0 <= i < |r| ensures key(r[i]) == ids[i] {
      assert ids[i] in ids;
    }
  }

  /** Different records of a table keyed by id have different ids. */
  lemma DistinctKeys<V>(m: map<Id, V>, r: seq<V>, key: V -> Id)
    requires forall k :: k in m ==> key(m[k]) == k
    requires forall v :: v in r ==> v in m.Values
    requires Distinct(r)
    ensures forall i, j :: 0 <= i < j < |r| ==> key(r[i]) != key(r[j])
  {
    forall i, j | 0 <= i < j < |r| ensures key(r[i]) != key(r[j]) {
      assert r[i] in r && r[j] in r;
      var k :| k in m && m[k] == r[i];
      var l :| l in m && m[l] == r[j];
    }
  }

  /** The records stored under `(id, a)` for the `a` of `aids`, in the order
      of `aids`; `attr` reads the second part of a record's key. */
  function RowsUnder<V(!new,==)>(m: map<Key, V>, id: Id, aids: seq<Id>, attr: V -> Id): (r: seq<V>)
    requires forall a :: (id, a) in m ==> a in aids
    requires Increasing(aids)
    requires forall k :: k in m ==> attr(m[k]) == k.1
    ensures forall a :: (id, a) in m ==> m[(id, a)] in r
    ensures forall v :: v in r ==> (id, attr(v)) in m && m[(id, attr(v))] == v
    ensures forall i, j :: 0 <= i < j < |r| ==> attr(r[i]) < attr(r[j])
  {
    var stored := a => (id, a) in m;
    var present := Filter(aids, stored);
    FilterIncreasing(aids, stored);
    var r := At(m, id, present);
    assert forall i :: 0 <= i < |r| ==> attr(r[i]) == present[i];
    forall a | (id, a) in m ensures m[(id, a)] in r {
      assert a in present;
      var i :| 0 <= i < |present| && present[i] == a;
      assert r[i] == m[(id, a)];
    }
    forall v | v in r ensures (id, attr(v)) in m && m[(id, attr(v))] == v {
      var i :| 0 <= i < |r| && r[i] == v;
      assert v == m[(id, present[i])];
    }
    r
  }

  function At<V>(m: map<Key, V>, id: Id, aids: seq<Id>): (r: seq<V>)
    requires forall a :: a in aids ==> (id, a) in m
    ensures |r| == |aids| && forall i :: 0 <= i < |aids| ==> r[i] == m[(id, aids[i])]
  {
    if aids == [] then [] else [m[(id, aids[0])]] + At(m, id, aids[1..])
  }

  lemma RowsAreValues<V(!new)>(m: map<Id, V>, ids: seq<Id>)
    requires forall k :: k in ids <==> k in m
    ensures forall v :: v in Rows(m, ids) <==> v in m.Values
  {
    var r := Rows(m, ids);
    forall v | v in m.Values ensures v in r {
      var k :| k in m && m[k] == v;
      var i :| 0 <= i < |ids| && ids[i] == k;
      assert r[i] == v;
    }
  }
}
