/** The in-memory item store of the inventory service: a table from item id
    to item object, seeded with three items, read by the list, lookup and
    filter endpoints and changed in place by the create, update and delete
    endpoints. */
module ItemStore {
  import opened Items

  /** The three items the table starts with. */
  function Seed(): (t: map<int, ItemData>)
    ensures KeysMatchIds(t)
  {
    map[0 := ItemData("Hammer", 9.99, 20, 0, Tools),
        1 := ItemData("Pliers", 4.99, 20, 1, Tools),
        2 := ItemData("Nails", 2.99, 200, 2, Consumables)]
  }

  class Store {
    /** The table from id to the stored item object. */
    var items: map<int, Item>
    /** The keys of the table in insertion order, the order in which the
        table's values are visited. */
    var order: seq<int>

    ghost predicate Valid()
      reads this, items.Values
    {
      && KeysMatchIds(Contents())
      && (forall k :: k in order <==> k in items)
      && Distinct(order)
    }

    /** The field values of every stored item, by key. */
    ghost function Contents(): (t: map<int, ItemData>)
      reads this, items.Values
      ensures t.Keys == items.Keys
    {
      map k | k in items :: items[k].Data()
    }

    /** The seeded table. */
    constructor ()
      ensures Valid() && fresh(items.Values)
      ensures Contents() == Seed() && order == [0, 1, 2]
    {
      var hammer := new Item("Hammer", 9.99, 20, 0, Tools);
      var pliers := new Item("Pliers", 4.99, 20, 1, Tools);
      var nails := new Item("Nails", 2.99, 200, 2, Consumables);
      items := map[0 := hammer, 1 := pliers, 2 := nails];
      order := [0, 1, 2];
    }

    /** The list endpoint: the whole table. */
    method Index() returns (r: map<int, Item>)
      requires Valid()
      ensures r == items
      ensures forall k :: k in r ==> r[k].id == k
    {
      r := items;
    }

    /** The lookup endpoint: the item stored under `id`, or not-found. */
    method QueryItemById(id: int) returns (r: Result<Item>)
      requires Valid()
      ensures id in items <==> r.Ok?
      ensures r.Ok? ==> r.value == items[id] && r.value.id == id
      ensures r.Err? ==> r.error == NotFound
    {
      if id !in items {
        return Err(NotFound);
      }
      r := Ok(items[id]);
    }

    /** The filter endpoint: echoes the query and returns, in table order,
        every stored item that passes it. */
    method QueryItemByParameters(q: Query) returns (echo: Query, selection: seq<Item>)
      requires Valid()
      ensures echo == q
      ensures forall j :: 0 <= j < |selection| ==> selection[j] in items.Values && CheckItem(q, selection[j].Data())
      ensures forall k :: k in items ==> (items[k] in selection <==> CheckItem(q, items[k].Data()))
      ensures forall i, j :: 0 <= i < j < |selection| ==> selection[i] != selection[j]
      ensures var keys := SelectKeys(q, order, Contents());
        |selection| == |keys| && forall i :: 0 <= i < |keys| ==> selection[i] == items[keys[i]]
    {
      ghost var table := Contents();
      ghost var keys: seq<int> := [];
      selection := [];
      var i := 0;
      while i < |order|
        invariant 0 <= i <= |order|
        invariant keys == SelectKeys(q, order[..i], table)
        invariant |selection| == |keys|
        invariant forall j :: 0 <= j < |keys| ==> keys[j] in items && selection[j] == items[keys[j]]
      {
        var k := order[i];
        assert order[..i + 1] == order[..i] + [k];
        if CheckItem(q, items[k].Data()) {
          selection := selection + [items[k]];
          keys := keys + [k];
        }
        i := i + 1;
      }
      assert order[..i] == order;
      echo := q;
      SelectKeysMembers(q, order, table);
      SelectKeysDistinct(q, order, table);
      forall i, j | 0 <= i < j < |selection|
        ensures selection[i] != selection[j]
      {
        assert table[keys[i]].id == keys[i] && table[keys[j]].id == keys[j];
      }
      forall j | 0 <= j < |selection|
        ensures selection[j] in items.Values && CheckItem(q, selection[j].Data())
      {
        assert keys[j] in keys && keys[j] in items.Keys;
      }
      forall k | k in items
        ensures items[k] in selection <==> CheckItem(q, items[k].Data())
      {
        if CheckItem(q, items[k].Data()) {
          assert k in keys;
          var j :| 0 <= j < |keys| && keys[j] == k;
          assert selection[j] == items[k];
        }
      }
    }

    /** The create endpoint: refuses an id that is already stored, and
        otherwise stores the item under its id. */
    method AddItem(item: Item) returns (r: Result<Item>)
      requires Valid()
      modifies this
      ensures Valid()
      ensures item.id in old(items) ==> r == Err(BadRequest) && items == old(items) && order == old(order)
      ensures item.id !in old(items) ==>
        && r == Ok(item)
        && items == old(items)[item.id := item]
        && order == old(order) + [item.id]
        && Contents() == old(Contents())[item.id := item.Data()]
    {
      if item.id in items {
        return Err(BadRequest);
      }
      items := items[item.id := item];
      order := order + [item.id];
      r := Ok(item);
    }

    /** The update endpoint: not-found for an absent id, bad-request when no
        field is given, and otherwise overwrites the given fields of the
        stored item in place and returns that item. */
    method Update(id: int, name: Option<string>, price: Option<real>, count: Option<int>) returns (r: Result<Item>)
      requires Valid()
      modifies items.Values
      ensures Valid() && items == old(items) && order == old(order)
      ensures id !in items ==> r == Err(NotFound) && Contents() == old(Contents())
      ensures id in items && name.None? && price.None? && count.None? ==>
        r == Err(BadRequest) && Contents() == old(Contents())
      ensures id in items && (name.Some? || price.Some? || count.Some?) ==>
        && r == Ok(items[id])
        && Contents() == old(Contents())[id := Patch(old(Contents())[id], name, price, count)]
    {
      if id !in items {
        return Err(NotFound);
      }
      if name.None? && price.None? && count.None? {
        return Err(BadRequest);
      }
      var item := items[id];
      forall k | k in items && k != id
        ensures items[k] != item
      {
        assert items[k].id != item.id;
      }
      if name.Some? {
        item.name := name.value;
      }
      if price.Some? {
        item.price := price.value;
      }
      if count.Some? {
        item.count := count.value;
      }
      r := Ok(item);
    }

    /** The delete endpoint: not-found for an absent id, and otherwise
        removes the entry and returns the item it held. */
    method DeleteItem(id: int) returns (r: Result<Item>)
      requires Valid()
      modifies this
      ensures Valid()
      ensures id !in old(items) ==> r == Err(NotFound) && items == old(items) && order == old(order)
      ensures id in old(items) ==>
        && r == Ok(old(items)[id])
        && r.value.Data() == old(Contents())[id]
        && items == old(items) - {id}
        && order == RemoveKey(old(order), id)
        && Contents() == old(Contents()) - {id}
    {
      if id !in items {
        return Err(NotFound);
      }
      var item := items[id];
      items := items - {id};
      RemoveKeyMembers(order, id);
      RemoveKeyDistinct(order, id);
      order := RemoveKey(order, id);
      r := Ok(item);
    }
  }

  /** Deleting an item and then looking its id up fails with not-found. */
  method DeleteThenLookup(s: Store, id: int) returns (deleted: Result<Item>, found: Result<Item>)
    requires s.Valid()
    modifies s
    ensures old(id in s.items) <==> deleted.Ok?
    ensures found == Err(NotFound)
  {
    deleted := s.DeleteItem(id);
    found := s.QueryItemById(id);
  }
}
