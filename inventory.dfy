/**
 The item records a bag stores and the table that holds them, as values:
 the sum of the stored counts ("used space") and the way a confirmed
 recycle changes the table, with the lemmas the bag's methods rely on.
 */
module Inventory {
  import opened Protocol

  /** One stack of items: its kind and how many the player holds. */
  datatype Item = Item(id: ItemId, count: int)

  /** The bag's table, keyed by item kind. */
  type Table = map<ItemId, Item>

  /** Every record is stored under its own kind. */
  ghost predicate KeysMatch(t: Table) {
    forall k :: k in t ==> t[k].id == k
  }

  /** The count the bag reports for `k`: a kind it does not hold counts as 0. */
  function CountOf(t: Table, k: ItemId): int {
    if k in t then t[k].count else 0
  }

  /** Removing a present key makes the table one entry smaller. */
  lemma RemoveShrinks(t: Table, k: ItemId)
    requires k in t
    ensures |t - {k}| == |t| - 1
  {
  }

  /** The sum of the counts of all stored records, taken in no particular order. */
  ghost function SumCounts(t: Table): int
    decreases |t|
  {
    if t == map[] then 0
    else
      var k :| k in t;
      RemoveShrinks(t, k);
      t[k].count + SumCounts(t - {k})
  }

  /** The sum does not depend on the order the records are visited in:
      any stored record can be taken out first. */
  lemma {:induction false} SumCountsRemove(t: Table, k: ItemId)
    requires k in t
    ensures SumCounts(t) == t[k].count + SumCounts(t - {k})
    decreases |t|
  {
    var j :| j in t && SumCounts(t) == t[j].count + SumCounts(t - {j});
    if j != k {
      RemoveShrinks(t, j);
      RemoveShrinks(t, k);
      SumCountsRemove(t - {j}, k);
      SumCountsRemove(t - {k}, j);
      assert t - {j} - {k} == t - {k} - {j};
    }
  }

  /** Storing `item` under its kind: the sum loses whatever that kind held
      before and gains `item`'s count. */
  lemma {:induction false} SumCountsPut(t: Table, item: Item)
    ensures SumCounts(t[item.id := item]) == SumCounts(t - {item.id}) + item.count
  {
    SumCountsRemove(t[item.id := item], item.id);
    assert t[item.id := item] - {item.id} == t - {item.id};
  }

  /** A table holding no negative count has a non-negative sum. */
  lemma {:induction false} SumCountsNonNegative(t: Table)
    requires forall k :: k in t ==> t[k].count >= 0
    ensures SumCounts(t) >= 0
    decreases |t|
  {
    if t != map[] {
      var k :| k in t;
      SumCountsRemove(t, k);
      RemoveShrinks(t, k);
      SumCountsNonNegative(t - {k});
    }
  }

  /** Since every record is keyed by its own kind, no two keys share a
      record: the table holds exactly as many records as kinds. */
  lemma {:induction false} ValuesCount(t: Table)
    requires KeysMatch(t)
    ensures |t.Values| == |t|
    decreases |t|
  {
    if t != map[] {
      var k :| k in t;
      var rest := t - {k};
      RemoveShrinks(t, k);
      ValuesCount(rest);
      assert t.Values == rest.Values + {t[k]} by {
        forall v | v in t.Values ensures v in rest.Values + {t[k]} {
          var j :| j in t && t[j] == v;
          if j != k { assert rest[j] == v; }
        }
      }
      assert t[k] !in rest.Values;
    }
  }

  /** The table after the server answered a recycle of kind `id` with
      `response`. Only a SUCCESS changes anything, and only for a kind the
      table holds: its count becomes the confirmed new count, and a count
      of zero or less removes the kind. A kind the table does not hold was
      looked up as a placeholder that is never stored, so it stays absent. */
  function Reconciled(t: Table, id: ItemId, response: RecycleResponse): (t': Table)
    ensures response.result != Success ==> t' == t
    ensures id !in t ==> t' == t
    ensures response.result == Success && id in t && response.newCount > 0 ==>
              id in t' && t'[id] == t[id].(count := response.newCount)
    ensures response.result == Success && response.newCount <= 0 ==> id !in t'
    ensures t' - {id} == t - {id}
    ensures KeysMatch(t) ==> KeysMatch(t')
  {
    if response.result == Success && id in t then
      var updated := t[id := t[id].(count := response.newCount)];
      if response.newCount <= 0 then updated - {id} else updated
    else t
  }

  /** How a recycle reply moves the used space: a SUCCESS on a held kind
      replaces its old count by the confirmed count, or by nothing when
      the kind is removed; every other reply leaves the sum alone. */
  lemma {:induction false} RecycleUsedSpace(t: Table, id: ItemId, response: RecycleResponse)
    requires KeysMatch(t)
    ensures SumCounts(Reconciled(t, id, response)) ==
              if response.result == Success && id in t then
                SumCounts(t) - t[id].count + (if response.newCount > 0 then response.newCount else 0)
              else SumCounts(t)
  {
    if response.result == Success && id in t {
      SumCountsRemove(t, id);
      if response.newCount > 0 {
        SumCountsPut(t, Item(id, response.newCount));
      } else {
        assert Reconciled(t, id, response) == t - {id};
      }
    }
  }
}
