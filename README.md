# ItemBag — the item inventory of a Pokémon GO client session

This project models `ItemBag` from the PokeGOAPI-Java client library: the
in-memory table of item stacks a player session keeps, and the operations
that read it, update it, and ask the game server to recycle (discard) items,
light an incense or use a lucky egg.

The model has three modules:

- `Protocol` (protocol.dfy) — the protocol values the bag handles. These are
  item kinds (`ItemId`, with the `Unrecognized` sentinel), recycle result
  codes, the requests the bag sends, and the reply to a request. A reply is
  either bytes that did not decode or the decoded response.
- `Inventory` (inventory.dfy) — the stored `Item` record (kind and count) and
  the table `map<ItemId, Item>` as a value. It holds the sum of the counts
  (`SumCounts`, the "used space"), the table after a recycle reply
  (`Reconciled`) and the lemmas about both.
- `Bag` (bag.dfy) — the class `ItemBag`. Its field `items` is the table. The
  methods change it in place, as the Java `HashMap` is changed by `clear`,
  `put` and `remove`. The invariant `Valid()` says every record is stored
  under its own kind.

The network is not modelled. Each request is appended to the ghost log
`sent`, so "no request was sent" can be stated as `sent == old(sent)`. The
reply is an input of the operation that sends the request. Java exceptions
become `Result.Fail(IllegalArgument)` and `Result.Fail(RemoteServer)`.

Two behaviours of the code worth noting:

- A successful recycle of a kind the bag does not hold never adds that kind.
  The Java code updates a placeholder record that was never stored.
- Counts are not required to be non-negative. `addItem` stores whatever
  record it is given. `SumCountsNonNegative` shows that the used space is
  non-negative only when every stored count is.

## Model

| member | source | states |
|---|---|---|
| Bag.ItemBag.constructor | library/src/main/java/com/pokegoapi/api/inventory/ItemBag.java:44-48 | a new bag holds no records and has sent nothing |
| Bag.ItemBag.Reset | library/src/main/java/com/pokegoapi/api/inventory/ItemBag.java:50-52 | afterwards the table is empty and the used space is 0, whatever it held; nothing is sent |
| Bag.ItemBag.AddItem | library/src/main/java/com/pokegoapi/api/inventory/ItemBag.java:54-56 | the record is stored under its kind, replacing any earlier one, and all other kinds are unchanged; a lookup of that kind then yields exactly this record; the used space loses the replaced count and gains the new one |
| Bag.ItemBag.GetItem | library/src/main/java/com/pokegoapi/api/inventory/ItemBag.java:113-124 | fails with IllegalArgument exactly for `Unrecognized`; otherwise yields a record of the asked kind whose count is the stored count, or 0 for an absent kind; for a held kind it is the stored record; the table is not changed |
| Bag.ItemBag.GetItems | library/src/main/java/com/pokegoapi/api/inventory/ItemBag.java:126-128 | the result is exactly the stored records, each under its own kind, one record per stored kind |
| Bag.ItemBag.GetItemsCount | library/src/main/java/com/pokegoapi/api/inventory/ItemBag.java:135-141 | the loop returns the sum of the counts of all stored records |
| Bag.ItemBag.RemoveItem | library/src/main/java/com/pokegoapi/api/inventory/ItemBag.java:103-105 | returns the record held for the kind, or None; that kind is gone afterwards and every other entry is unchanged; nothing is sent |
| Bag.ItemBag.RecycleItem | library/src/main/java/com/pokegoapi/api/inventory/ItemBag.java:67-95 | `Unrecognized` or a quantity above the held count (0 when absent) fails with IllegalArgument before any request, the table unchanged; otherwise exactly one recycle request with the kind and quantity is sent; an undecodable reply fails with RemoteServer and leaves the table unchanged; a decoded reply's result, including a code the decoder does not know, is returned and the table becomes `Reconciled` |
| Inventory.Reconciled | library/src/main/java/com/pokegoapi/api/inventory/ItemBag.java:87-94 | only a SUCCESS on a held kind changes the table; the kind's count becomes the confirmed count when that is positive, and the kind is absent afterwards when it is 0 or less; every other kind is untouched; records stay under their own kinds |
| Inventory.RecycleUsedSpace | library/src/main/java/com/pokegoapi/api/inventory/ItemBag.java:87-94 | a successful recycle of a held kind moves the used space by the confirmed count (or 0 when the kind is removed) minus the held count; any other reply leaves it unchanged |
| Inventory.SumCountsRemove | library/src/main/java/com/pokegoapi/api/inventory/ItemBag.java:135-141 | the used space does not depend on the order the records are visited in: any stored record can be taken out of the sum first |
| Inventory.SumCountsPut | library/src/main/java/com/pokegoapi/api/inventory/ItemBag.java:54-56 | storing a record under its kind replaces that kind's contribution to the used space by the record's count |
| Inventory.SumCountsNonNegative | library/src/main/java/com/pokegoapi/api/inventory/ItemBag.java:135-141 | a table with no negative count has a non-negative used space |
| Inventory.ValuesCount | library/src/main/java/com/pokegoapi/api/inventory/ItemBag.java:44 | a table whose records sit under their own kinds holds as many distinct records as kinds |
| Bag.ItemBag.UseItem | library/src/main/java/com/pokegoapi/api/inventory/ItemBag.java:150-165 | `Unrecognized` fails with IllegalArgument and sends nothing; each of the four incense kinds sends exactly one use-incense request with that kind; every other kind sends nothing; the table is never changed |
| Bag.ItemBag.UseIncense | library/src/main/java/com/pokegoapi/api/inventory/ItemBag.java:174-191 | `Unrecognized` has no protocol number to put in the request, so it fails with IllegalArgument and sends nothing; any other kind sends exactly one use-incense request with that kind, and an undecodable reply then fails with RemoteServer; the table is not changed |
| Bag.ItemBag.UseOrdinaryIncense | library/src/main/java/com/pokegoapi/api/inventory/ItemBag.java:200-202 | sends exactly one use-incense request for the ordinary incense, and fails with RemoteServer when the reply does not decode; the table is not changed |
| Bag.ItemBag.UseLuckyEgg | library/src/main/java/com/pokegoapi/api/inventory/ItemBag.java:211-228 | sends exactly one XP-boost request for the lucky egg; returns the decoded response, or fails with RemoteServer when the reply does not decode; the table is not changed |

`Bag.RecycleDownToZero` is a client whose assertions follow from these
contracts alone. It calls a recycle that is refused, then a successful
recycle down to 2, then one the server rejects, then one with a result code
the decoder does not know, then a successful one down to 0.

## Left out

- Sending requests and the session behind it are left out. This covers the
  `PokemonGo` reference the bag keeps, the request handler, and login or
  transport failures raised while sending. The model records each request in
  the ghost log `sent` and takes the reply as a parameter. A transport
  failure is not one of the modelled replies.
- Building and parsing protocol messages is a foreign library. It is reduced
  to a reply that either did not decode or is the decoded response. The
  incense response is only logged in the source, and the lucky-egg response
  is handed back unread. So both are an opaque type parameter `R`.
- Logging (`Log.i`) is left out.
- The `Item` class is not part of this model. Only its kind and count are
  kept, and the placeholder's back-reference to the bag is dropped.
- Aliasing is left out. In Java, `getItem` returns the stored object itself
  and `getItems` returns a live view of the map's values. A caller who
  changes a returned record changes the bag. In the model both return
  values. `RecycleItem` writes its count update back into the table, which is
  what the in-place `setCount` on the stored record does.
- Bag.ItemBag.GetItemsCount: the sum is over unbounded integers. Java `int`
  wrap-around of a very large total is not modelled.
- Item kinds are modelled as an `Unrecognized` sentinel or any protocol
  number. Only the numbers of the four incense kinds (401–404) and the lucky
  egg (301) are named. The rest of the protocol's closed enumeration is not
  listed.
