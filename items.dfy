/** The values of the inventory service: item categories, the item record,
    the optional filters of the query endpoint and the selection they make,
    and the partial update of an item's fields. */
module Items {

  datatype Option<T> = None | Some(value: T)

  /** The two failures the service reports: 404 and 400. */
  datatype Error = NotFound | BadRequest

  datatype Result<T> = Ok(value: T) | Err(error: Error)

  datatype Category = Tools | Consumables

  /** The five fields of an item at one moment. The price is a floating-point
      number in the service; it is only stored and compared for equality. */
  datatype ItemData = ItemData(name: string, price: real, count: int, id: int, category: Category)

  /** An item record. The service stores these objects in its table and
      updates their fields in place. */
  class Item {
    var name: string
    var price: real
    var count: int
    var id: int
    var category: Category

    constructor (name: string, price: real, count: int, id: int, category: Category)
      ensures Data() == ItemData(name, price, count, id, category)
    {
      this.name := name;
      this.price := price;
      this.count := count;
      this.id := id;
      this.category := category;
    }

    /** The item's current field values. */
    function Data(): ItemData
      reads this
    {
      ItemData(name, price, count, id, category)
    }
  }

  /** The table invariant: every entry is stored under its own id. */
  ghost predicate KeysMatchIds(table: map<int, ItemData>)
  {
    forall k :: k in table ==> table[k].id == k
  }

  // ---------------------------------------------------------------------
  // The filter query

  /** The optional filters of the query endpoint; None means "not given". */
  datatype Query = Query(name: Option<string>, price: Option<real>, count: Option<int>, category: Option<Category>)

  /** The query with no filter given. */
  const Unfiltered := Query(None, None, None, None)

  /** An item passes the query when every filter that is given equals
      the corresponding field of the item. */
  predicate CheckItem(q: Query, d: ItemData): (r: bool)
    ensures q == Unfiltered ==> r
    ensures q == Query(Some(d.name), Some(d.price), Some(d.count), Some(d.category)) ==> r
  {
    && (q.name.None? || d.name == q.name.value)
    && (q.price.None? || d.price == q.price.value)
    && (q.count.None? || d.count == q.count.value)
    && (q.category.None? || d.category == q.category.value)
  }

  /** The keys, in the order of `keys`, whose entries in `table` pass the query. */
  function SelectKeys(q: Query, keys: seq<int>, table: map<int, ItemData>): (r: seq<int>)
    requires forall k :: k in keys ==> k in table
    ensures |r| <= |keys|
    ensures forall k :: k in r ==> k in keys
  {
    if keys == [] then []
    else
      var last := keys[|keys| - 1];
      SelectKeys(q, keys[..|keys| - 1], table) + (if CheckItem(q, table[last]) then [last] else [])
  }

  /** The selection is sound and complete: a key is selected exactly when it
      is one of the keys and its entry passes every given filter. */
  lemma {:induction false} SelectKeysMembers(q: Query, keys: seq<int>, table: map<int, ItemData>)
    requires forall k :: k in keys ==> k in table
    ensures forall k :: k in SelectKeys(q, keys, table) <==> k in keys && CheckItem(q, table[k])
  {
    if keys != [] {
      var init := keys[..|keys| - 1];
      SelectKeysMembers(q, init, table);
      assert keys == init + [keys[|keys| - 1]];
    }
  }

  /** Every entry passes the query with no filter: nothing is dropped and
      the order is kept. */
  lemma {:induction false} SelectKeysUnfiltered(keys: seq<int>, table: map<int, ItemData>)
    requires forall k :: k in keys ==> k in table
    ensures SelectKeys(Unfiltered, keys, table) == keys
  {
    if keys != [] {
      var init := keys[..|keys| - 1];
      SelectKeysUnfiltered(init, table);
      assert keys == init + [keys[|keys| - 1]];
    }
  }

  /** No key is selected twice when the keys are distinct. */
  lemma {:induction false} SelectKeysDistinct(q: Query, keys: seq<int>, table: map<int, ItemData>)
    requires forall k :: k in keys ==> k in table
    requires Distinct(keys)
    ensures Distinct(SelectKeys(q, keys, table))
  {
    if keys != [] {
      var init := keys[..|keys| - 1];
      var last := keys[|keys| - 1];
      assert keys == init + [last];
      SelectKeysDistinct(q, init, table);
      SelectKeysMembers(q, init, table);
      assert last !in init;
    }
  }

  predicate Distinct(s: seq<int>)
  {
    forall i, j :: 0 <= i < j < |s| ==> s[i] != s[j]
  }

  // ---------------------------------------------------------------------
  // Removal from the insertion order of the table

  /** `s` without the occurrences of `x`, the others in their order. */
  function RemoveKey(s: seq<int>, x: int): (r: seq<int>)
    ensures |r| <= |s|
    ensures x !in r
    ensures forall k :: k in r ==> k in s
  {
    if s == [] then []
    else (if s[0] == x then [] else [s[0]]) + RemoveKey(s[1..], x)
  }

  lemma {:induction false} RemoveKeyMembers(s: seq<int>, x: int)
    ensures forall k :: k in RemoveKey(s, x) <==> k in s && k != x
  {
    if s != [] {
      RemoveKeyMembers(s[1..], x);
      assert s == [s[0]] + s[1..];
    }
  }

  lemma {:induction false} RemoveKeyDistinct(s: seq<int>, x: int)
    requires Distinct(s)
    ensures Distinct(RemoveKey(s, x))
  {
    if s != [] {
      RemoveKeyDistinct(s[1..], x);
      RemoveKeyMembers(s[1..], x);
      assert s[0] !in s[1..];
    }
  }

  /** Removing a key that is present shortens the order by exactly one. */
  lemma {:induction false} RemoveKeyLength(s: seq<int>, x: int)
    requires Distinct(s) && x in s
    ensures |RemoveKey(s, x)| == |s| - 1
  {
    if s[0] != x {
      RemoveKeyLength(s[1..], x);
    } else {
      RemoveKeyAbsent(s[1..], x);
    }
  }

  /** Removing a key that is absent changes nothing. */
  lemma {:induction false} RemoveKeyAbsent(s: seq<int>, x: int)
    requires x !in s
    ensures RemoveKey(s, x) == s
  {
    if s != [] {
      RemoveKeyAbsent(s[1..], x);
      assert s == [s[0]] + s[1..];
    }
  }

  // ---------------------------------------------------------------------
  // The partial update

  /** The item after the update endpoint has overwritten the fields it was
      given; the id and the category are never written. */
  function Patch(d: ItemData, name: Option<string>, price: Option<real>, count: Option<int>): (r: ItemData)
    ensures r.id == d.id && r.category == d.category
  {
    d.(name := if name.Some? then name.value else d.name,
       price := if price.Some? then price.value else d.price,
       count := if count.Some? then count.value else d.count)
  }

  /** Writing an item's fields back under its own key keeps the table
      invariant, since the update never writes the id. */
  lemma PatchKeepsKeysMatchIds(table: map<int, ItemData>, id: int, name: Option<string>, price: Option<real>, count: Option<int>)
    requires KeysMatchIds(table) && id in table
    ensures KeysMatchIds(table[id := Patch(table[id], name, price, count)])
  {
  }

  /** The update overwrites exactly the fields it was given: the id, the
      category and every field left unset keep their values. */
  lemma PatchOverwritesSupplied(d: ItemData, name: Option<string>, price: Option<real>, count: Option<int>)
    ensures var r := Patch(d, name, price, count);
      && r.id == d.id && r.category == d.category
      && r.name == (if name.Some? then name.value else d.name)
      && r.price == (if price.Some? then price.value else d.price)
      && r.count == (if count.Some? then count.value else d.count)
  {
  }
}
