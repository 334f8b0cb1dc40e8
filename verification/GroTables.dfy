/**
 tcpGROTable and udpGROTable: flows mapped to lists of items, with a pool of
 backing lists for new flows. The two types differ only in their key and item
 types, so one class stands for both.
 */
module GroTables {
  import opened Gro

  /** A []item: a backing list and the number of items in it. */
  datatype ItemSlice = ItemSlice(list: array<GroItem>, len: nat)

  /** No backing list is shared between two flows, two places of the pool, or a flow and the pool. */
  ghost predicate Separate(flows: map<FlowKey, ItemSlice>, pool: seq<ItemSlice>, lists: set<array<GroItem>>) {
    && (forall k :: k in flows ==>
         flows[k].list in lists && flows[k].list.Length == IDEAL_BATCH_SIZE && flows[k].len <= IDEAL_BATCH_SIZE)
    && (forall q :: 0 <= q < |pool| ==>
         pool[q].list in lists && pool[q].list.Length == IDEAL_BATCH_SIZE && pool[q].len == 0)
    && (forall k, l :: k in flows && l in flows && k != l ==> flows[k].list != flows[l].list)
    && (forall q, r :: 0 <= q < r < |pool| ==> pool[q].list != pool[r].list)
    && (forall k, q :: k in flows && 0 <= q < |pool| ==> flows[k].list != pool[q].list)
  }

  lemma MapCount<V>(m: map<FlowKey, V>, k: FlowKey, v: V)
    ensures |m[k := v]| == if k in m then |m| else |m| + 1
    ensures k in m ==> |m - {k}| == |m| - 1
  {
    assert m[k := v].Keys == m.Keys + {k};
    assert |m[k := v].Keys| == |m[k := v]| && |m.Keys| == |m|;
    assert (m - {k}).Keys == m.Keys - {k};
    assert |(m - {k}).Keys| == |m - {k}|;
  }

  /** A flow takes the last list of the pool. */
  lemma SeparateTake(flows: map<FlowKey, ItemSlice>, pool: seq<ItemSlice>, lists: set<array<GroItem>>, key: FlowKey,
                     len: nat)
    requires Separate(flows, pool, lists) && key !in flows && |pool| > 0 && len <= IDEAL_BATCH_SIZE
    ensures pool[|pool| - 1].list in lists && pool[|pool| - 1].list.Length == IDEAL_BATCH_SIZE
    ensures pool[|pool| - 1].len == 0
    ensures forall k :: k in flows ==> flows[k].list != pool[|pool| - 1].list
    ensures Separate(flows[key := ItemSlice(pool[|pool| - 1].list, len)], pool[..|pool| - 1], lists)
  {
  }

  /** A flow keeps its list and changes its length. */
  lemma SeparateResize(flows: map<FlowKey, ItemSlice>, pool: seq<ItemSlice>, lists: set<array<GroItem>>, key: FlowKey,
                       len: nat)
    requires Separate(flows, pool, lists) && key in flows && len <= IDEAL_BATCH_SIZE
    ensures flows[key].list in lists && flows[key].list.Length == IDEAL_BATCH_SIZE && flows[key].len <= IDEAL_BATCH_SIZE
    ensures forall k :: k in flows && k != key ==> flows[k].list != flows[key].list
    ensures Separate(flows[key := ItemSlice(flows[key].list, len)], pool, lists)
  {
  }

  /** A flow gives its list back. */
  lemma SeparateReturn(flows: map<FlowKey, ItemSlice>, pool: seq<ItemSlice>, lists: set<array<GroItem>>, key: FlowKey)
    requires Separate(flows, pool, lists) && key in flows
    ensures Separate(flows - {key}, pool + [ItemSlice(flows[key].list, 0)], lists)
  {
  }

  /** The in-place part of deleteAt: the items behind position i move one place to the front. */
  method ShiftDown(list: array<GroItem>, i: nat, len: nat)
    requires i < len <= list.Length
    modifies list
    ensures list[..len - 1] == old(list[..len])[..i] + old(list[..len])[i + 1..]
  {
    var n := i;
    while n + 1 < len
      invariant i <= n < len
      invariant forall p :: 0 <= p < n && p < i ==> list[p] == old(list[p])
      invariant forall p :: i <= p < n ==> list[p] == old(list[p + 1])
      invariant forall p :: n < p < len ==> list[p] == old(list[p])
    {
      list[n] := list[n + 1];
      n := n + 1;
    }
  }

  class GroTable {
    var itemsByFlow: map<FlowKey, ItemSlice>
    var itemsPool: seq<ItemSlice>
    /** The backing lists, whether in a flow or in the pool. */
    ghost const lists: set<array<GroItem>>

    /** Flows and pooled lists are 128 together, and share nothing. */
    ghost predicate Valid()
      reads this
    {
      |itemsByFlow| + |itemsPool| == IDEAL_BATCH_SIZE && Sized() && Separate(itemsByFlow, itemsPool, lists)
    }

    ghost predicate Sized()
      reads this`itemsByFlow
    {
      forall k :: k in itemsByFlow ==> itemsByFlow[k].list in lists && itemsByFlow[k].len <= itemsByFlow[k].list.Length
    }

    /** The items of every flow. */
    ghost function Items(): (m: map<FlowKey, seq<GroItem>>)
      requires Sized()
      reads this`itemsByFlow, lists
      ensures m.Keys == itemsByFlow.Keys
    {
      map k | k in itemsByFlow :: itemsByFlow[k].list[..itemsByFlow[k].len]
    }

    /** Items is the map with the table's keys and each flow's items. */
    lemma ItemsAre(m: map<FlowKey, seq<GroItem>>)
      requires Sized() && m.Keys == itemsByFlow.Keys
      requires forall k :: k in itemsByFlow ==> itemsByFlow[k].list[..itemsByFlow[k].len] == m[k]
      ensures Items() == m
    {
    }

    /** newTCPGROTable and newUDPGROTable. */
    constructor ()
      ensures Valid() && fresh(lists)
      ensures Items() == map[] && |itemsPool| == IDEAL_BATCH_SIZE
    {
      var pool: seq<ItemSlice> := [];
      ghost var all: set<array<GroItem>> := {};
      while |pool| < IDEAL_BATCH_SIZE
        invariant |pool| <= IDEAL_BATCH_SIZE && fresh(all)
        invariant Separate(map[], pool, all)
      {
        var list := new GroItem[IDEAL_BATCH_SIZE];
        pool := pool + [ItemSlice(list, 0)];
        all := all + {list};
      }
      itemsByFlow := map[];
      itemsPool := pool;
      lists := all;
    }

    /** newItems: takes the last list of the pool. */
    method NewItems() returns (items: ItemSlice)
      requires |itemsPool| > 0
      modifies this`itemsPool
      ensures itemsPool == old(itemsPool)[..|old(itemsPool)| - 1] && items == old(itemsPool)[|old(itemsPool)| - 1]
    {
      items := itemsPool[|itemsPool| - 1];
      itemsPool := itemsPool[..|itemsPool| - 1];
    }

    /** insert, once the item has been made: at the end of its flow, on a list from the pool if the flow is new. */
    method Insert(item: GroItem)
      requires Valid()
      requires item.key in itemsByFlow ==> itemsByFlow[item.key].len < IDEAL_BATCH_SIZE
      requires item.key !in itemsByFlow ==> |itemsByFlow| < IDEAL_BATCH_SIZE
      modifies this, lists
      ensures Valid()
      ensures Items()
           == old(Items())[item.key := if item.key in old(Items()) then old(Items())[item.key] + [item] else [item]]
    {
      if item.key in itemsByFlow {
        InsertNext(item);
      } else {
        InsertFirst(item);
      }
    }

    method InsertNext(item: GroItem)
      requires Valid() && item.key in itemsByFlow && itemsByFlow[item.key].len < IDEAL_BATCH_SIZE
      modifies this, lists
      ensures Valid()
      ensures Items() == old(Items())[item.key := old(Items())[item.key] + [item]]
    {
      hide Separate, GroTable.Items;
      ghost var flows0 := itemsByFlow;
      SameLists(flows0, lists, itemsPool);
      SeparateResize(flows0, itemsPool, lists, item.key, flows0[item.key].len + 1);
      MapCount(flows0, item.key, ItemSlice(flows0[item.key].list, flows0[item.key].len + 1));
      Append(itemsByFlow[item.key], item);
      assert Separate(itemsByFlow, itemsPool, lists);
    }

    method InsertFirst(item: GroItem)
      requires Valid() && item.key !in itemsByFlow && |itemsByFlow| < IDEAL_BATCH_SIZE
      modifies this, lists
      ensures Valid()
      ensures Items() == old(Items())[item.key := [item]]
    {
      hide Separate, GroTable.Items;
      ghost var flows0, pool0 := itemsByFlow, itemsPool;
      SeparateTake(flows0, pool0, lists, item.key, 1);
      MapCount(flows0, item.key, ItemSlice(pool0[|pool0| - 1].list, 1));
      var items := NewItems();
      AppendFirst(items, item);
    }

    method AppendFirst(items: ItemSlice, item: GroItem)
      requires Sized() && items.list in lists && items.len == 0 < items.list.Length && item.key !in itemsByFlow
      requires forall k :: k in itemsByFlow ==> itemsByFlow[k].list != items.list
      modifies this`itemsByFlow, items.list
      ensures itemsByFlow == old(itemsByFlow)[item.key := ItemSlice(items.list, 1)]
      ensures Sized()
      ensures Items() == old(Items())[item.key := [item]]
    {
      Append(items, item);
    }

    /** items = append(items, item), stored back under the item's key. */
    method Append(items: ItemSlice, item: GroItem)
      requires Sized() && items.list in lists && items.len < items.list.Length
      requires if item.key in itemsByFlow then itemsByFlow[item.key] == items else items.len == 0
      requires forall k :: k in itemsByFlow && k != item.key ==> itemsByFlow[k].list != items.list
      modifies this`itemsByFlow, items.list
      ensures itemsByFlow == old(itemsByFlow)[item.key := ItemSlice(items.list, items.len + 1)]
      ensures Sized()
      ensures Items()
           == old(Items())[item.key := if item.key in old(Items()) then old(Items())[item.key] + [item] else [item]]
    {
      ghost var before := Items();
      ghost var was := items.list[..items.len];
      items.list[items.len] := item;
      itemsByFlow := itemsByFlow[item.key := ItemSlice(items.list, items.len + 1)];
      ghost var grown := if item.key in before then before[item.key] + [item] else [item];
      forall k | k in itemsByFlow
        ensures itemsByFlow[k].list[..itemsByFlow[k].len] == before[item.key := grown][k]
      {
        if k == item.key {
          assert items.list[..items.len + 1] == was + [item] == grown;
        }
      }
      ItemsAre(before[item.key := grown]);
    }

    /** updateAt: writes an item back to where it was read from. */
    method UpdateAt(item: GroItem, i: nat)
      requires Valid() && item.key in itemsByFlow && i < itemsByFlow[item.key].len
      modifies lists
      ensures Valid()
      ensures Items() == old(Items())[item.key := old(Items())[item.key][i := item]]
      ensures itemsByFlow == old(itemsByFlow)
    {
      hide Separate;
      SameLists(itemsByFlow, lists, itemsPool);
      SeparateResize(itemsByFlow, itemsPool, lists, item.key, itemsByFlow[item.key].len);
      ghost var before := Items();
      var items := itemsByFlow[item.key];
      items.list[i] := item;
      forall k | k in itemsByFlow
        ensures itemsByFlow[k].list[..itemsByFlow[k].len] == before[item.key := before[item.key][i := item]][k]
      {
      }
      ItemsAre(before[item.key := before[item.key][i := item]]);
    }

    /** deleteAt: removes one item, in place. */
    method DeleteAt(key: FlowKey, i: nat)
      requires Valid() && key in itemsByFlow && i < itemsByFlow[key].len
      modifies this, lists
      ensures Valid()
      ensures Items() == old(Items())[key := old(Items())[key][..i] + old(Items())[key][i + 1..]]
      ensures itemsByFlow
           == old(itemsByFlow)[key := ItemSlice(old(itemsByFlow)[key].list, old(itemsByFlow)[key].len - 1)]
      ensures itemsPool == old(itemsPool)
    {
      hide Separate, GroTable.Items;
      ghost var flows0 := itemsByFlow;
      var items := itemsByFlow[key];
      SameLists(flows0, lists, itemsPool);
      SeparateResize(flows0, itemsPool, lists, key, items.len - 1);
      MapCount(flows0, key, ItemSlice(items.list, items.len - 1));
      Shift(key, i);
      assert Separate(itemsByFlow, itemsPool, lists);
    }

    method Shift(key: FlowKey, i: nat)
      requires Sized() && key in itemsByFlow && i < itemsByFlow[key].len
      requires forall k :: k in itemsByFlow && k != key ==> itemsByFlow[k].list != itemsByFlow[key].list
      modifies this`itemsByFlow, itemsByFlow[key].list
      ensures itemsByFlow
           == old(itemsByFlow)[key := ItemSlice(old(itemsByFlow)[key].list, old(itemsByFlow)[key].len - 1)]
      ensures Sized()
      ensures Items() == old(Items())[key := old(Items())[key][..i] + old(Items())[key][i + 1..]]
    {
      ghost var before := Items();
      var items := itemsByFlow[key];
      ShiftDown(items.list, i, items.len);
      itemsByFlow := itemsByFlow[key := ItemSlice(items.list, items.len - 1)];
      ghost var left := before[key][..i] + before[key][i + 1..];
      forall k | k in itemsByFlow
        ensures itemsByFlow[k].list[..itemsByFlow[k].len] == before[key := left][k]
      {
      }
      ItemsAre(before[key := left]);
    }

    /** reset: every list goes back to the pool, emptied. */
    method Reset()
      requires Valid()
      modifies this
      ensures Valid()
      ensures Items() == map[] && |itemsPool| == IDEAL_BATCH_SIZE
    {
      hide Separate;
      while itemsByFlow != map[]
        invariant Valid()
        decreases |itemsByFlow|
      {
        var k :| k in itemsByFlow;
        var items := itemsByFlow[k];
        SeparateReturn(itemsByFlow, itemsPool, lists, k);
        MapCount(itemsByFlow, k, items);
        itemsPool := itemsPool + [ItemSlice(items.list, 0)];
        itemsByFlow := itemsByFlow - {k};
      }
    }
  }

  /** Every flow's list is one of the table's, and long enough. */
  lemma SameLists(flows: map<FlowKey, ItemSlice>, lists: set<array<GroItem>>, pool: seq<ItemSlice>)
    requires Separate(flows, pool, lists)
    ensures forall k :: k in flows ==>
      flows[k].list in lists && flows[k].len <= IDEAL_BATCH_SIZE == flows[k].list.Length
  {
  }
}
