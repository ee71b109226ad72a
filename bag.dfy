/**
 The item bag of one player session: the table of item stacks the client
 keeps, and the operations that read it, update it, and ask the server to
 recycle or use items.

 The transport is not modelled. Each request the bag hands over is
 appended to the ghost log `sent`, and what came back is a parameter of
 the operation: bytes that did not decode, or the decoded response.
 */
module Bag {
  import opened Protocol
  import opened Inventory

  class ItemBag {
    /** The stored records, one per kind. */
    var items: Table
    /** Every request sent on this bag's behalf, oldest first. */
    ghost var sent: seq<Request>

    ghost predicate Valid()
      reads this
    {
      KeysMatch(items)
    }

    constructor ()
      ensures Valid() && items == map[] && sent == []
    {
      items := map[];
      sent := [];
    }

    /** Forgets every record. */
    method Reset()
      modifies this
      ensures Valid() && items == map[] && sent == old(sent)
      ensures SumCounts(items) == 0
    {
      items := map[];
    }

    /** Stores `item` under its own kind, replacing any record of that kind. */
    method AddItem(item: Item)
      requires Valid()
      modifies this
      ensures Valid() && sent == old(sent)
      ensures items == old(items)[item.id := item]
      ensures item.id != Unrecognized ==> GetItem(item.id) == Ok(item)
      ensures SumCounts(items) == SumCounts(old(items) - {item.id}) + item.count
    {
      items := items[item.id := item];
      SumCountsPut(old(items), item);
    }

    /** The record of kind `k`. `Unrecognized` is refused; a kind the bag
        does not hold yields a zero-count record of that kind, which is not
        stored. */
    function GetItem(k: ItemId): (r: Result<Item>)
      reads this
      requires Valid()
      ensures r.Fail? <==> k == Unrecognized
      ensures r.Fail? ==> r.error == IllegalArgument
      ensures r.Ok? ==> r.value.id == k && r.value.count == CountOf(items, k)
      ensures r.Ok? && k in items ==> r.value == items[k]
    {
      if k == Unrecognized then Fail(IllegalArgument)
      else if k !in items then Ok(Item(k, 0))
      else Ok(items[k])
    }

    /** The stored records. */
    function GetItems(): (s: set<Item>)
      reads this
      requires Valid()
      ensures forall r :: r in s <==> r.id in items && items[r.id] == r
      ensures |s| == |items|
    {
      ValuesCount(items);
      items.Values
    }

    /** The used inventory space: the sum of the stored counts. */
    method GetItemsCount() returns (ct: int)
      ensures ct == SumCounts(items)
    {
      ct := 0;
      var rest := items;
      while rest != map[]
        invariant ct + SumCounts(rest) == SumCounts(items)
        decreases |rest|
      {
        var k :| k in rest;
        SumCountsRemove(rest, k);
        RemoveShrinks(rest, k);
        ct := ct + rest[k].count;
        rest := rest - {k};
      }
    }

    /** Deletes the record of kind `id`, returning it, or None when the bag
        held no such kind. No request is sent. */
    method RemoveItem(id: ItemId) returns (removed: Option<Item>)
      requires Valid()
      modifies this
      ensures Valid() && sent == old(sent)
      ensures removed == if id in old(items) then Some(old(items)[id]) else None
      ensures items == old(items) - {id}
    {
      removed := if id in items then Some(items[id]) else None;
      items := items - {id};
    }

    /** Asks the server to recycle `quantity` items of kind `id` and applies
        its answer. The kind and the quantity are checked before anything is
        sent; an undecodable reply changes nothing; a decoded one is returned
        and changes the table as `Reconciled` says. */
    method RecycleItem(id: ItemId, quantity: int, reply: Reply<RecycleResponse>)
      returns (r: Result<RecycleResult>)
      requires Valid()
      modifies this
      ensures Valid()
      ensures id == Unrecognized || quantity > CountOf(old(items), id) ==>
                r == Fail(IllegalArgument) && items == old(items) && sent == old(sent)
      ensures id != Unrecognized && quantity <= CountOf(old(items), id) ==>
                sent == old(sent) + [RecycleInventoryItem(id, quantity)] &&
                match reply
                case Undecodable => r == Fail(RemoteServer) && items == old(items)
                case Decoded(response) =>
                  r == Ok(response.result) && items == Reconciled(old(items), id, response)
    {
      var found := GetItem(id);
      if found.Fail? {
        return Fail(found.error);
      }
      var item := found.value;
      if item.count < quantity {
        return Fail(IllegalArgument);
      }
      sent := sent + [RecycleInventoryItem(id, quantity)];
      match reply
      case Undecodable =>
        r := Fail(RemoteServer);
      case Decoded(response) =>
        if response.result == Success {
          item := item.(count := response.newCount);
          // The stored record is updated in place; a placeholder is not stored.
          if id in items {
            items := items[id := item];
          }
          if item.count <= 0 {
            var _ := RemoveItem(item.id);
          }
        }
        r := Ok(response.result);
    }

    /** Uses an item of kind `k`: an incense is lit through `UseIncense`;
        every other kind is left alone and nothing is sent. */
    method UseItem<R>(k: ItemId, reply: Reply<R>) returns (r: Result<()>)
      modifies this`sent
      ensures k == Unrecognized ==> r == Fail(IllegalArgument) && sent == old(sent)
      ensures k != Unrecognized && !IsIncense(k) ==> r == Ok(()) && sent == old(sent)
      ensures IsIncense(k) ==>
                sent == old(sent) + [LightIncense(k)] &&
                r == if reply.Undecodable? then Fail(RemoteServer) else Ok(())
    {
      if k == Unrecognized {
        return Fail(IllegalArgument);
      }
      if IsIncense(k) {
        r := UseIncense(k, reply);
      } else {
        r := Ok(());
      }
    }

    /** Lights an incense of kind `kind`. Building the request needs the
        kind's protocol number, which `Unrecognized` does not have, so that
        kind is refused before anything is sent. The server's answer is only
        logged, so the bag is left as it was. */
    method UseIncense<R>(kind: ItemId, reply: Reply<R>) returns (r: Result<()>)
      modifies this`sent
      ensures kind == Unrecognized ==> r == Fail(IllegalArgument) && sent == old(sent)
      ensures kind != Unrecognized ==>
                sent == old(sent) + [LightIncense(kind)] &&
                r == if reply.Undecodable? then Fail(RemoteServer) else Ok(())
    {
      if kind == Unrecognized {
        return Fail(IllegalArgument);
      }
      sent := sent + [LightIncense(kind)];
      r := if reply.Undecodable? then Fail(RemoteServer) else Ok(());
    }

    /** Lights an ordinary incense. */
    method UseOrdinaryIncense<R>(reply: Reply<R>) returns (r: Result<()>)
      modifies this`sent
      ensures sent == old(sent) + [LightIncense(IncenseOrdinary)]
      ensures r == if reply.Undecodable? then Fail(RemoteServer) else Ok(())
    {
      r := UseIncense(IncenseOrdinary, reply);
    }

    /** Uses a lucky egg and hands back the server's decoded answer. */
    method UseLuckyEgg<R>(reply: Reply<R>) returns (r: Result<R>)
      modifies this`sent
      ensures sent == old(sent) + [UseItemXpBoost(LuckyEgg)]
      ensures r == match reply
                   case Undecodable => Fail(RemoteServer)
                   case Decoded(response) => Ok(response)
    {
      sent := sent + [UseItemXpBoost(LuckyEgg)];
      match reply
      case Undecodable =>
        r := Fail(RemoteServer);
      case Decoded(response) =>
        r := Ok(response);
    }
  }

  /** A client that relies on the contracts alone: with five items of kind
      `k` stored, recycling six is refused before anything is sent, a
      confirmed count of 2 leaves two, a rejection or a result code the
      decoder does not know leaves the table alone, and a confirmed count of
      0 removes the kind and the used space with it. */
  method RecycleDownToZero(k: ItemId)
    requires k != Unrecognized
  {
    var bag := new ItemBag();
    bag.AddItem(Item(k, 5));
    var r := bag.RecycleItem(k, 6, Decoded(RecycleResponse(Success, 0)));
    assert r == Fail(IllegalArgument) && bag.sent == [];
    r := bag.RecycleItem(k, 3, Decoded(RecycleResponse(Success, 2)));
    assert r == Ok(Success) && bag.GetItem(k) == Ok(Item(k, 2));
    r := bag.RecycleItem(k, 2, Decoded(RecycleResponse(ErrorNotEnoughCopies, 0)));
    assert bag.GetItem(k) == Ok(Item(k, 2));
    r := bag.RecycleItem(k, 2, Decoded(RecycleResponse(UnrecognizedResult, 0)));
    assert r == Ok(UnrecognizedResult) && bag.GetItem(k) == Ok(Item(k, 2));
    r := bag.RecycleItem(k, 2, Decoded(RecycleResponse(Success, 0)));
    assert k !in bag.items && bag.GetItem(k) == Ok(Item(k, 0));
    var used := bag.GetItemsCount();
    assert used == 0;
    assert |bag.sent| == 4;
  }
}
