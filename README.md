# Inventory item store

This project is a Dafny model of the item store behind a small FastAPI inventory service (`main.py`). The store is a process-wide table from an integer id to an `Item` record. An item has a name, a price, a count, an id and a category (tools or consumables). The table starts with three items: Hammer, Pliers and Nails. Six endpoints act on it:

- list returns the whole table;
- lookup by id returns the item or fails with not-found (404);
- the filter query echoes its four optional filters and returns every item that passes all the filters that were given;
- create fails with bad-request (400) if the id is already stored;
- update fails with not-found for an absent id, or with bad-request if none of name, price and count is given; otherwise it overwrites the given fields of the stored item in place;
- delete fails with not-found for an absent id; otherwise it removes the entry and returns the item it held.

The model has two modules:

- `Items` (`items.dfy`) holds the values. It has the category, the item record and an `ItemData` snapshot of the record's fields. It also has the filter (`CheckItem`), the selection it makes (`SelectKeys`), the removal of a key from the table's insertion order (`RemoveKey`) and the partial update (`Patch`). It proves their properties as lemmas.
- `ItemStore` (`store.dfy`) holds the class `Store`. Its fields are `items: map<int, Item>` and `order: seq<int>`. `order` is the list of keys in insertion order, which is the order in which a Python dict lists its values.
  - `Item` is a class because the update endpoint writes the fields of the stored object in place.
  - The object invariant `Valid()` states three things: every entry is stored under its own id, `order` lists exactly the keys, and no key appears twice in `order`.
  - `Contents()` gives the field values of every stored item, by key. The state-changing methods are specified against it.
  - Because every entry carries its own key, no object is stored under two keys. This is what lets `Update` promise that no other entry changes.
  - Errors are the datatype `Error = NotFound | BadRequest`, returned in a `Result`.

Create with a stored id and update with no field given both raise status 400 (main.py:88-91, 108-111), so the model returns `BadRequest` for both.

## Model

| member | source | states |
|---|---|---|
| `Items.Item.constructor` | main.py:13-18 | a new item record holds exactly the five given field values |
| `Items.CheckItem` | main.py:63-69 | every filter left unset matches anything, so the query with no filter passes every item; an item passes the query made of its own four fields |
| `Items.SelectKeys` | main.py:74 | the selection takes keys only from the table's keys and is no longer than them |
| `Items.SelectKeysMembers` | main.py:63-74 | a key is selected if and only if it is stored and, for each of name, price, count and category, the filter is unset or equals the item's field |
| `Items.SelectKeysUnfiltered` | main.py:63-74 | with every filter unset, every stored key is selected, in table order |
| `Items.SelectKeysDistinct` | main.py:74 | no item is selected twice |
| `Items.RemoveKey` | main.py:130 | popping a key from the insertion order leaves an order without that key, made only of keys that were there, and no longer than before |
| `Items.RemoveKeyMembers` | main.py:130 | popping a key leaves exactly the other keys in the order |
| `Items.RemoveKeyDistinct` | main.py:130 | popping a key keeps the order free of repeats |
| `Items.RemoveKeyLength` | main.py:130 | popping a stored key shortens the order by exactly one |
| `Items.RemoveKeyAbsent` | main.py:130 | removing a key that is not in the order leaves it as it was |
| `Items.Patch` | main.py:113-119 | the update's field writes never change the item's id or category |
| `Items.PatchOverwritesSupplied` | main.py:113-119 | the update overwrites exactly the given fields among name, price and count; id, category and unset fields keep their values |
| `Items.PatchKeepsKeysMatchIds` | main.py:113-119 | writing the updated item back under its key keeps every entry stored under its own id |
| `ItemStore.Seed` | main.py:24-31 | the seed table stores each of its three items under the item's own id |
| `ItemStore.Store.constructor` | main.py:24-31 | the store starts valid, holding Hammer, Pliers and Nails under ids 0, 1 and 2, in that order |
| `ItemStore.Store.Index` | main.py:42-44 | the list endpoint returns the whole table, every entry stored under its own id |
| `ItemStore.Store.QueryItemById` | main.py:47-54 | succeeds if and only if the id is stored and then returns exactly the stored item (whose id is the requested one); otherwise fails with not-found; the table is not modified |
| `ItemStore.Store.QueryItemByParameters` | main.py:57-82 | echoes the query unchanged; the selection is the stored items, in table order, whose entries pass every given filter; every stored item is in it if and only if it passes; no item appears twice; the table is not modified |
| `ItemStore.Store.AddItem` | main.py:85-93 | a stored id fails with bad-request and leaves the table as it was; otherwise the item is stored under its id, appended to the order, returned, and every other entry is unchanged; the table stays valid |
| `ItemStore.Store.Update` | main.py:96-121 | an absent id fails with not-found (even with no field given); a stored id with no field given fails with bad-request; in both cases nothing changes; otherwise the stored item is returned and is the only entry changed, with exactly the given fields overwritten; keys, order and validity are kept |
| `ItemStore.Store.DeleteItem` | main.py:123-131 | an absent id fails with not-found and changes nothing; otherwise it returns the item that was stored, with its old field values, removes the key from the table and the order, and leaves every other entry unchanged; the table stays valid |
| `ItemStore.DeleteThenLookup` | main.py:123-131 | a delete succeeds exactly when the id was stored, and a lookup of that id afterwards fails with not-found |

## Left out

- HTTP routing, the decorators, status codes and the `HTTPException` machinery: errors are the `Error` datatype instead.
- The `detail` message strings of the errors.
- Request validation and type coercion of bodies and query parameters, which are done by an external validation library. The model takes already-typed values.
- The logging of query parameters and of the selection. It is output only and has no effect on the result.
- The price is a floating-point number in the service. It is modelled as `real` because it is only stored and compared for equality. IEEE behaviour, such as NaN never being equal to itself, is not modelled.
- Concurrent requests sharing the table are not modelled. The service has no locking, and each operation is modelled as one atomic step.
- `ItemStore.Store.Index`: the result is a Dafny `map`, which has no order. The insertion order in which the service serialises the table is kept in `order` but is not part of this result.
- The one-key response dicts that wrap each result (`{"items": …}`, `{"added": …}`, `{"updated": …}`, `{"deleted": …}`, and `{"query": …, "selection": …}`) are dropped. The methods return the wrapped values directly: the table, the stored item object, or the echoed query and the selection. Serialising these values into the HTTP response is not modelled.
