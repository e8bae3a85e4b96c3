/**
  The state of the ranking page (`ItemsState` in src/app/rankings/new/page.tsx)
  and the updaters that do not involve dragging: adding and deleting an item,
  resolving an id to its container, resetting to a topic, and the mappings
  from and to a saved ranking record.

  The state maps container ids to ordered item lists. `"parking-lot"` is the
  pool of unranked items; every other container is a tier, whose id starts
  with `tier-` and is listed, in rank order, in `tierOrder`.
 */
module Partition {
  import opened Seqs
  import opened Text
  import ItemTemplates

  datatype Option<T> = None | Some(value: T)

  /** The droppable id of the pool (src/components/ValuePool.tsx). */
  const PoolId: string := "parking-lot"

  /** The droppable id of the zone that starts a new tier (src/components/RankingBoard.tsx). */
  const NewTierZone: string := "new-tier-drop-zone"

  const TierPrefix: string := "tier-"

  /** The page's test for "this id is a tier": `id.startsWith('tier-')`. */
  predicate IsTierId(id: string)
  {
    StartsWith(id, TierPrefix)
  }

  /** The tier id made from a clock reading: `` `tier-${n}` ``. */
  function TierKey(n: nat): (id: string)
    ensures IsTierId(id)
  {
    assert (TierPrefix + NatToString(n))[..|TierPrefix|] == TierPrefix;
    TierPrefix + NatToString(n)
  }

  /** Different clock readings give different tier ids. */
  lemma TierKeyInjective(a: nat, b: nat)
    ensures TierKey(a) == TierKey(b) <==> a == b
  {
    if TierKey(a) == TierKey(b) {
      assert TierKey(a)[|TierPrefix|..] == NatToString(a);
      assert TierKey(b)[|TierPrefix|..] == NatToString(b);
      NatToStringInjective(a, b);
    }
  }

  /**
    The property names every JavaScript object has through `Object.prototype`:
    `name in items.containers` holds for them whatever the containers are.
   */
  const PrototypeNames: set<string> := {
    "constructor", "hasOwnProperty", "isPrototypeOf", "propertyIsEnumerable",
    "toLocaleString", "toString", "valueOf", "__proto__",
    "__defineGetter__", "__defineSetter__", "__lookupGetter__", "__lookupSetter__"}

  /**
    An item text that no id test of the page can mistake for something else:
    not tier-shaped, not the pool's id, not the new-tier zone's id, and not
    a name that `in` finds on every object.
   */
  predicate WellNamed(item: string)
  {
    !IsTierId(item) && item != PoolId && item != NewTierZone && item !in PrototypeNames
  }

  datatype ItemsState = ItemsState(
    containers: map<string, seq<string>>,
    tierOrder: seq<string>,
    otherBlobIds: Option<seq<string>>)

  /** `items.containers['parking-lot'] || []`. */
  function Pool(s: ItemsState): seq<string>
  {
    if PoolId in s.containers then s.containers[PoolId] else []
  }

  /** The list a container id names; a missing container counts as empty. */
  function Lookup(c: map<string, seq<string>>, k: string): seq<string>
  {
    if k in c then c[k] else []
  }

  /** Every id in `tierOrder` names a container. */
  predicate TiersPresent(s: ItemsState)
  {
    forall t :: t in s.tierOrder ==> t in s.containers
  }

  /** The lists the ids of `order` name, in that order (`order.map(id => containers[id])`). */
  function ListsOf(c: map<string, seq<string>>, order: seq<string>): (r: seq<seq<string>>)
    requires forall k :: k in order ==> k in c
    ensures |r| == |order|
    ensures forall i :: 0 <= i < |order| ==> r[i] == c[order[i]]
  {
    seq(|order|, i requires 0 <= i < |order| => c[order[i]])
  }

  /** The items of the containers `order` names, one list after another. */
  function TierItems(c: map<string, seq<string>>, order: seq<string>): seq<string>
  {
    if order == [] then [] else Lookup(c, order[0]) + TierItems(c, order[1..])
  }

  /** Every item of the state: the tiers' items in rank order, then the pool's. */
  function AllItems(s: ItemsState): seq<string>
  {
    TierItems(s.containers, s.tierOrder) + Pool(s)
  }

  /**
    The invariants of the partition: the pool exists; `tierOrder` lists
    every tier exactly once, and nothing else; tiers are never empty; every
    item occurs exactly once in the whole state, and no item looks like a
    container id.
   */
  ghost predicate Valid(s: ItemsState)
  {
    Shape(s) && ItemsOk(AllItems(s))
  }

  /** The containers: the pool, and the tiers `tierOrder` lists once each, none of them empty. */
  ghost predicate Shape(s: ItemsState)
  {
    && PoolId in s.containers
    && Unique(s.tierOrder)
    && (forall t :: t in s.tierOrder ==> t in s.containers && IsTierId(t) && s.containers[t] != [])
    && (forall k :: k in s.containers ==> k == PoolId || k in s.tierOrder)
  }

  /** The items: each once, none that looks like a container id. */
  ghost predicate ItemsOk(items: seq<string>)
  {
    Unique(items) && forall x :: x in items ==> WellNamed(x)
  }

  /** Part of a good collection, in any order, is good. */
  lemma ItemsOkSub(items: seq<string>, part: seq<string>)
    requires ItemsOk(items) && multiset(part) <= multiset(items)
    ensures ItemsOk(part)
  {
    UniqueSubMultiset(items, part);
    assert forall x :: x in part ==> x in multiset(items);
  }

  /** A good collection with one new, well-named item added, in any order, is good. */
  lemma ItemsOkAdd(items: seq<string>, more: seq<string>, x: string)
    requires ItemsOk(items) && x !in items && WellNamed(x)
    requires multiset(more) == multiset(items) + multiset{x}
    ensures ItemsOk(more)
  {
    UniqueAppend(items, x);
    UniquePermutation(items + [x], more);
    assert forall y :: y in more ==> y in multiset(items + [x]);
  }

  lemma PoolIdIsNotTierId()
    ensures !IsTierId(PoolId)
  {
    assert PoolId[..|TierPrefix|][0] != TierPrefix[0];
  }

  /** The pool is never a tier. */
  lemma PoolIsNotATier(s: ItemsState)
    requires Valid(s)
    ensures PoolId !in s.tierOrder
  {
    PoolIdIsNotTierId();
  }

  // ---------------------------------------------------------------------
  // Facts about the items a key order names

  lemma {:induction false} TierItemsAppend(c: map<string, seq<string>>, a: seq<string>, b: seq<string>)
    ensures TierItems(c, a + b) == TierItems(c, a) + TierItems(c, b)
  {
    if a == [] {
      assert a + b == b;
    } else {
      assert (a + b)[0] == a[0];
      assert (a + b)[1..] == a[1..] + b;
      TierItemsAppend(c, a[1..], b);
    }
  }

  lemma TierItemsSingle(c: map<string, seq<string>>, k: string)
    ensures TierItems(c, [k]) == Lookup(c, k)
  {
    assert [k][1..] == [];
  }

  /** Changing or dropping a container no key of `order` names changes nothing. */
  lemma {:induction false} TierItemsOther(c: map<string, seq<string>>, order: seq<string>, k: string, v: seq<string>)
    requires k !in order
    ensures TierItems(c[k := v], order) == TierItems(c, order)
    ensures TierItems(c - {k}, order) == TierItems(c, order)
  {
    if order != [] {
      TierItemsOther(c, order[1..], k, v);
    }
  }

  /** The saved lists, flattened, are the tiers' items. */
  lemma {:induction false} ListsOfFlatten(c: map<string, seq<string>>, order: seq<string>)
    requires forall j :: j in order ==> j in c
    ensures Flatten(ListsOf(c, order)) == TierItems(c, order)
  {
    if order != [] {
      assert ListsOf(c, order)[1..] == ListsOf(c, order[1..]);
      ListsOfFlatten(c, order[1..]);
    }
  }

  /** Splitting `order` around the key at position `i`. */
  lemma TierItemsSplit(c: map<string, seq<string>>, order: seq<string>, i: nat)
    requires i < |order|
    ensures order == order[..i] + [order[i]] + order[i + 1..]
    ensures TierItems(c, order) == TierItems(c, order[..i]) + Lookup(c, order[i]) + TierItems(c, order[i + 1..])
  {
    var a, k, b := order[..i], order[i], order[i + 1..];
    assert order == a + [k] + b;
    TierItemsAppend(c, a + [k], b);
    TierItemsAppend(c, a, [k]);
    TierItemsSingle(c, k);
  }

  /** Each named container's items are part of the whole. */
  lemma {:induction false} TierItemsContains(c: map<string, seq<string>>, order: seq<string>, i: nat)
    requires i < |order|
    ensures multiset(Lookup(c, order[i])) <= multiset(TierItems(c, order))
  {
    if i > 0 {
      TierItemsContains(c, order[1..], i - 1);
    }
  }

  /** An item is among the named containers' items exactly when one of them holds it. */
  lemma {:induction false} TierItemsMember(c: map<string, seq<string>>, order: seq<string>, x: string)
    ensures x in TierItems(c, order) <==> exists k :: k in order && x in Lookup(c, k)
  {
    if order != [] {
      TierItemsMember(c, order[1..], x);
      if exists k :: k in order && x in Lookup(c, k) {
        var k :| k in order && x in Lookup(c, k);
        var i :| 0 <= i < |order| && order[i] == k;
        if i > 0 {
          assert order[1..][i - 1] == k;
        }
      }
      if x in TierItems(c, order[1..]) {
        var k :| k in order[1..] && x in Lookup(c, k);
        assert k in order;
      }
    }
  }

  /** The items around a key that occurs once. */
  lemma UpdateBetween(c: map<string, seq<string>>, a: seq<string>, k: string, b: seq<string>, v: seq<string>)
    requires k !in a && k !in b
    ensures TierItems(c[k := v], a + [k] + b) == TierItems(c, a) + v + TierItems(c, b)
    ensures TierItems(c, a + [k] + b) == TierItems(c, a) + Lookup(c, k) + TierItems(c, b)
  {
    TierItemsAppend(c, a + [k], b);
    TierItemsAppend(c, a, [k]);
    TierItemsSingle(c, k);
    TierItemsAppend(c[k := v], a + [k], b);
    TierItemsAppend(c[k := v], a, [k]);
    TierItemsSingle(c[k := v], k);
    TierItemsOther(c, a, k, v);
    TierItemsOther(c, b, k, v);
  }

  /** The named items gain `v` and lose the old list when the tier `k` becomes `v`. */
  lemma UpdateInOrder(c: map<string, seq<string>>, order: seq<string>, k: string, v: seq<string>)
    requires Unique(order) && k in order
    ensures multiset(TierItems(c[k := v], order)) + multiset(Lookup(c, k))
         == multiset(TierItems(c, order)) + multiset(v)
  {
    var i := IndexOf(order, k);
    UniqueSplit(order, i);
    UpdateBetween(c, order[..i], k, order[i + 1..], v);
  }

  /** Removing the key at position `i` from `order` loses exactly that container's items. */
  lemma RemoveFromOrder(c: map<string, seq<string>>, order: seq<string>, i: nat)
    requires i < |order|
    ensures multiset(TierItems(c, RemoveAt(order, i))) + multiset(Lookup(c, order[i]))
         == multiset(TierItems(c, order))
  {
    var a, b := order[..i], order[i + 1..];
    TierItemsSplit(c, order, i);
    assert RemoveAt(order, i) == a + b;
    TierItemsAppend(c, a, b);
  }

  /** Inserting a key into `order` gains exactly that container's items. */
  lemma InsertIntoOrder(c: map<string, seq<string>>, order: seq<string>, i: nat, k: string)
    requires i <= |order|
    ensures multiset(TierItems(c, InsertAt(order, i, k)))
         == multiset(TierItems(c, order)) + multiset(Lookup(c, k))
  {
    RemoveFromOrder(c, InsertAt(order, i, k), i);
    RemoveInserted(order, i, k);
  }

  /** Reordering the keys with `arrayMove` keeps the same items. */
  lemma MoveInOrder(c: map<string, seq<string>>, order: seq<string>, from: int, to: int)
    requires SpliceStart(|order|, from) < |order|
    ensures multiset(TierItems(c, ArrayMove(order, from, to))) == multiset(TierItems(c, order))
  {
    var f := SpliceStart(|order|, from);
    var rest := RemoveAt(order, f);
    var t := SpliceStart(|rest|, if to < 0 then |order| + to else to);
    assert ArrayMove(order, from, to) == InsertAt(rest, t, order[f]);
    RemoveFromOrder(c, order, f);
    InsertIntoOrder(c, rest, t, order[f]);
  }

  /** Filtering an empty tier out of `order` and the map keeps the same items, in the same order. */
  lemma RemoveEmptyFromOrder(c: map<string, seq<string>>, order: seq<string>, k: string)
    requires Unique(order) && k in order && Lookup(c, k) == []
    ensures TierItems(c - {k}, Without(order, k)) == TierItems(c, order)
  {
    var i := IndexOf(order, k);
    WithoutUniqueSplit(order, i);
    DropEmptyBetween(c, order[..i], k, order[i + 1..]);
  }

  /** An empty container between two key lists that do not name it contributes nothing, and neither does its key. */
  lemma DropEmptyBetween(c: map<string, seq<string>>, a: seq<string>, k: string, b: seq<string>)
    requires k !in a && k !in b && Lookup(c, k) == []
    ensures TierItems(c - {k}, a + b) == TierItems(c, a + [k] + b)
  {
    calc {
      TierItems(c, a + [k] + b);
    == { TierItemsAppend(c, a + [k], b); }
      TierItems(c, a + [k]) + TierItems(c, b);
    == { TierItemsAppend(c, a, [k]); TierItemsSingle(c, k); }
      TierItems(c, a) + [] + TierItems(c, b);
    == { TierItemsAppend(c, a, b); }
      TierItems(c, a + b);
    == { TierItemsOther(c, a + b, k, []); }
      TierItems(c - {k}, a + b);
    }
  }

  // ---------------------------------------------------------------------
  // How the whole item collection changes

  /** Replacing the list of one container (the pool or a tier) swaps its items for the new ones. */
  lemma AllItemsUpdate(s: ItemsState, k: string, v: seq<string>)
    requires Unique(s.tierOrder) && PoolId !in s.tierOrder
    requires k in s.containers && (k == PoolId || k in s.tierOrder)
    ensures multiset(AllItems(s.(containers := s.containers[k := v]))) + multiset(s.containers[k])
         == multiset(AllItems(s)) + multiset(v)
  {
    var c := s.containers;
    var s' := s.(containers := c[k := v]);
    var t, t' := TierItems(c, s.tierOrder), TierItems(c[k := v], s.tierOrder);
    if k == PoolId {
      TierItemsOther(c, s.tierOrder, k, v);
      assert AllItems(s') == t + v && AllItems(s) == t + c[k];
      SwapPart(c[k], v, t, c[k], v);
    } else {
      UpdateInOrder(c, s.tierOrder, k, v);
      assert AllItems(s') == t' + Pool(s) && AllItems(s) == t + Pool(s);
      SwapPart(t, t', Pool(s), c[k], v);
    }
  }

  /** Deleting an empty tier from both the map and the order keeps every item where it was. */
  lemma AllItemsRemoveEmpty(s: ItemsState, k: string)
    requires Unique(s.tierOrder) && k != PoolId
    requires k in s.tierOrder && Lookup(s.containers, k) == []
    ensures AllItems(s.(containers := s.containers - {k}, tierOrder := Without(s.tierOrder, k)))
         == AllItems(s)
  {
    RemoveEmptyFromOrder(s.containers, s.tierOrder, k);
    assert Pool(s.(containers := s.containers - {k}, tierOrder := Without(s.tierOrder, k))) == Pool(s);
  }

  /** Adding a new last tier adds its items. */
  lemma AllItemsAppendTier(s: ItemsState, k: string, v: seq<string>)
    requires k !in s.tierOrder && k != PoolId
    ensures AllItems(s.(containers := s.containers[k := v], tierOrder := s.tierOrder + [k]))
         == TierItems(s.containers, s.tierOrder) + v + Pool(s)
  {
    var c := s.containers[k := v];
    TierItemsOther(s.containers, s.tierOrder, k, v);
    TierItemsAppend(c, s.tierOrder, [k]);
    TierItemsSingle(c, k);
  }

  /** Two different named containers together are part of the whole. */
  lemma TwoInOrder(c: map<string, seq<string>>, order: seq<string>, i: nat, j: nat)
    requires i < j < |order|
    ensures multiset(Lookup(c, order[i])) + multiset(Lookup(c, order[j])) <= multiset(TierItems(c, order))
  {
    var a, b := order[..j], order[j..];
    assert order == a + b;
    TierItemsAppend(c, a, b);
    TierItemsContains(c, a, i);
    TierItemsContains(c, b, 0);
    assert a[i] == order[i] && b[0] == order[j];
    AddSubMultisets(multiset(Lookup(c, order[i])), multiset(Lookup(c, order[j])),
                    multiset(TierItems(c, a)), multiset(TierItems(c, b)));
  }

  /** Any two containers' lists together are part of the whole collection. */
  lemma ContainersWithin(s: ItemsState, k1: string, k2: string)
    requires Shape(s) && PoolId !in s.tierOrder
    requires k1 in s.containers && k2 in s.containers && k1 != k2
    ensures multiset(s.containers[k1]) + multiset(s.containers[k2]) <= multiset(AllItems(s))
  {
    var c, order := s.containers, s.tierOrder;
    var both := multiset(c[k1]) + multiset(c[k2]);
    if k1 == PoolId || k2 == PoolId {
      var t := if k1 == PoolId then k2 else k1;
      TierItemsContains(c, order, IndexOf(order, t));
      AddSubMultisets(multiset(c[t]), multiset(c[PoolId]),
                      multiset(TierItems(c, order)), multiset(Pool(s)));
      assert both == multiset(c[t]) + multiset(c[PoolId]);
    } else {
      var i, j := IndexOf(order, k1), IndexOf(order, k2);
      if i < j {
        TwoInOrder(c, order, i, j);
      } else {
        TwoInOrder(c, order, j, i);
      }
      assert both <= multiset(TierItems(c, order));
    }
  }

  /** Two containers never share an item. */
  lemma ContainersDisjoint(s: ItemsState, k1: string, k2: string)
    requires Valid(s)
    requires k1 in s.containers && k2 in s.containers && k1 != k2
    ensures forall x :: x in s.containers[k1] ==> x !in s.containers[k2]
  {
    PoolIsNotATier(s);
    ContainersWithin(s, k1, k2);
    DisjointParts(AllItems(s), s.containers[k1], s.containers[k2]);
  }

  /** Each container's list has no repetitions. */
  lemma ContainerUnique(s: ItemsState, k: string)
    requires Valid(s) && k in s.containers
    ensures Unique(s.containers[k])
  {
    PoolIsNotATier(s);
    if k != PoolId {
      TierItemsContains(s.containers, s.tierOrder, IndexOf(s.tierOrder, k));
    }
    UniqueSubMultiset(AllItems(s), s.containers[k]);
  }

  /** `Object.values(items.containers).flat().includes(v)`. */
  predicate Contains(s: ItemsState, v: string)
  {
    exists k :: k in s.containers && v in s.containers[k]
  }

  /** In a valid state, an item is in some container exactly when it is one of all the items. */
  lemma ContainsIsMembership(s: ItemsState, v: string)
    requires Valid(s)
    ensures Contains(s, v) <==> v in AllItems(s)
  {
    TierItemsMember(s.containers, s.tierOrder, v);
    if Contains(s, v) {
      var k :| k in s.containers && v in s.containers[k];
      assert k == PoolId || k in s.tierOrder;
    }
  }

  // ---------------------------------------------------------------------
  // findContainer

  /** `Object.keys(containers).find(key => containers[key].includes(id))`, over the given keys. */
  function FindIn(c: map<string, seq<string>>, keys: seq<string>, id: string): (r: Option<string>)
    ensures r.Some? ==> r.value in keys && r.value in c && id in c[r.value]
    ensures r.None? ==> forall k :: k in keys && k in c ==> id !in c[k]
  {
    if keys == [] then None
    else if keys[0] in c && id in c[keys[0]] then Some(keys[0])
    else FindIn(c, keys[1..], id)
  }

  /**
    `findContainer(id)`: an id that is a container key is its own container;
    otherwise the first container (pool first, then the tiers in rank order)
    whose list holds it; `None` when there is none.
   */
  function FindContainer(s: ItemsState, id: string): (r: Option<string>)
    ensures r.Some? ==> r.value in s.containers && (r.value == id || id in s.containers[r.value])
    ensures r == Some(id) <==> id in s.containers
    ensures r.None? ==> (&& id !in s.containers
                         && forall k :: k in [PoolId] + s.tierOrder && k in s.containers ==> id !in s.containers[k])
  {
    if id in s.containers then Some(id) else FindIn(s.containers, [PoolId] + s.tierOrder, id)
  }

  /**
    In a valid state the search order does not matter: an item resolves to
    the one container holding it, and the lookup fails exactly when the id
    is neither a key nor in any list.
   */
  lemma FindContainerResolves(s: ItemsState, id: string)
    requires Valid(s)
    ensures forall k :: k in s.containers && id in s.containers[k] && id !in s.containers ==>
              FindContainer(s, id) == Some(k)
    ensures FindContainer(s, id).None? <==> id !in s.containers && !Contains(s, id)
  {
    var r := FindContainer(s, id);
    forall k | k in s.containers && id in s.containers[k] && id !in s.containers
      ensures r == Some(k)
    {
      assert k in [PoolId] + s.tierOrder;
      var j := r.value;
      if j != k {
        ContainersDisjoint(s, k, j);
      }
    }
    if r.None? {
      forall k | k in s.containers ensures id !in s.containers[k] {
        assert k in [PoolId] + s.tierOrder;
      }
    }
  }

  // ---------------------------------------------------------------------
  // addNewValue

  /**
    `addNewValue(value)`: the trimmed value is appended to the pool, unless
    it is empty or already in some container; then nothing changes.
   */
  function AddValue(s: ItemsState, value: string): (r: ItemsState)
    requires PoolId in s.containers
    ensures Trim(value) == [] || Contains(s, Trim(value)) ==> r == s
    ensures Trim(value) != [] && !Contains(s, Trim(value)) ==>
              && r.tierOrder == s.tierOrder && r.otherBlobIds == s.otherBlobIds
              && r.containers.Keys == s.containers.Keys
              && r.containers[PoolId] == s.containers[PoolId] + [Trim(value)]
              && forall k :: k in s.containers && k != PoolId ==> r.containers[k] == s.containers[k]
  {
    var trimmed := Trim(value);
    if trimmed == [] then s
    else if Contains(s, trimmed) then s
    else s.(containers := s.containers[PoolId := s.containers[PoolId] + [trimmed]])
  }

  /**
    Adding keeps the invariants when the trimmed value cannot be mistaken
    for a container id, and the collection gains exactly the new value.
   */
  lemma AddValuePreservesValid(s: ItemsState, value: string)
    requires Valid(s) && WellNamed(Trim(value))
    ensures Valid(AddValue(s, value))
    ensures multiset(AllItems(AddValue(s, value)))
         == multiset(AllItems(s)) + (if Trim(value) == [] || Contains(s, Trim(value)) then multiset{} else multiset{Trim(value)})
  {
    var t := Trim(value);
    PoolIsNotATier(s);
    AddValueShape(s, value);
    AddValueItems(s, value);
    if t != [] && !Contains(s, t) {
      ContainsIsMembership(s, t);
      ItemsOkAdd(AllItems(s), AllItems(AddValue(s, value)), t);
    }
  }

  /** Adding changes only the pool's list, so the containers keep their shape. */
  lemma AddValueShape(s: ItemsState, value: string)
    requires Shape(s)
    ensures Shape(AddValue(s, value))
  {
  }

  /** The items after adding: the old ones, then the trimmed value when it is added. */
  lemma AddValueItems(s: ItemsState, value: string)
    requires PoolId in s.containers && PoolId !in s.tierOrder
    ensures AllItems(AddValue(s, value))
         == AllItems(s) + (if Trim(value) == [] || Contains(s, Trim(value)) then [] else [Trim(value)])
  {
    var t := Trim(value);
    if t != [] && !Contains(s, t) {
      assert AddValue(s, value) == s.(containers := s.containers[PoolId := s.containers[PoolId] + [t]]);
      AppendToPoolItems(s, t);
    } else {
      assert AllItems(s) + [] == AllItems(s);
    }
  }

  /** Appending to the pool appends to the whole collection. */
  lemma AppendToPoolItems(s: ItemsState, x: string)
    requires PoolId in s.containers && PoolId !in s.tierOrder
    ensures AllItems(s.(containers := s.containers[PoolId := s.containers[PoolId] + [x]]))
         == AllItems(s) + [x]
  {
    var c, p := s.containers, s.containers[PoolId];
    TierItemsOther(c, s.tierOrder, PoolId, p + [x]);
    assert AllItems(s.(containers := c[PoolId := p + [x]])) == TierItems(c, s.tierOrder) + (p + [x]);
  }

  // ---------------------------------------------------------------------
  // handleDeleteItem

  /**
    `handleDeleteItem(id)`: refused (state unchanged) when the id resolves
    to a container other than the pool; when it resolves to the pool, every
    occurrence of the id is filtered out of the pool; an id that resolves
    nowhere changes nothing.
   */
  function DeleteItem(s: ItemsState, id: string): (r: ItemsState)
    ensures FindContainer(s, id) != Some(PoolId) ==> r == s
    ensures FindContainer(s, id) == Some(PoolId) ==>
              && r.tierOrder == s.tierOrder && r.otherBlobIds == s.otherBlobIds
              && r.containers.Keys == s.containers.Keys
              && r.containers[PoolId] == Without(s.containers[PoolId], id)
              && multiset(r.containers[PoolId]) == multiset(s.containers[PoolId])[id := 0]
              && forall k :: k in s.containers && k != PoolId ==> r.containers[k] == s.containers[k]
  {
    match FindContainer(s, id)
    case None => s
    case Some(key) =>
      if key != PoolId then s
      else s.(containers := s.containers[key := Without(s.containers[key], id)])
  }

  /**
    Deleting keeps the invariants, and the deleted item is gone from the
    whole collection; an item of the pool is deleted by cutting it out of
    the pool, whose other items keep their order.
   */
  lemma DeletePreservesValid(s: ItemsState, id: string)
    requires Valid(s)
    ensures Valid(DeleteItem(s, id))
    ensures FindContainer(s, id) == Some(PoolId) ==>
              multiset(AllItems(DeleteItem(s, id))) == multiset(AllItems(s))[id := 0]
    ensures id in Pool(s) ==>
              && FindContainer(s, id) == Some(PoolId)
              && var i := IndexOf(Pool(s), id);
                 Pool(DeleteItem(s, id)) == Pool(s)[..i] + Pool(s)[i + 1..]
  {
    if id in Pool(s) {
      DeleteFromPool(s, id);
    }
    var r := DeleteItem(s, id);
    if FindContainer(s, id) == Some(PoolId) {
      var c, order := s.containers, s.tierOrder;
      var p := c[PoolId];
      var tiers := TierItems(c, order);
      PoolIsNotATier(s);
      assert r == s.(containers := c[PoolId := Without(p, id)]);
      TierItemsOther(c, order, PoolId, Without(p, id));
      assert AllItems(r) == tiers + Without(p, id) && AllItems(s) == tiers + p;
      // Outside the pool the id does not occur, so the pool held all its copies.
      assert id !in tiers by {
        if id in p {
          TierItemsMember(c, order, id);
          forall t | t in order ensures id !in Lookup(c, t) {
            ContainersDisjoint(s, PoolId, t);
          }
        } else {
          assert id == PoolId && !WellNamed(PoolId);
        }
      }
      WithoutTail(tiers, p, id);
      ItemsOkSub(AllItems(s), AllItems(r));
    }
  }

  /** An item of the pool resolves to the pool, and deleting it cuts it out of the pool. */
  lemma DeleteFromPool(s: ItemsState, id: string)
    requires Valid(s) && id in Pool(s)
    ensures FindContainer(s, id) == Some(PoolId)
    ensures var i := IndexOf(Pool(s), id);
            Pool(DeleteItem(s, id)) == Pool(s)[..i] + Pool(s)[i + 1..]
  {
    var p := s.containers[PoolId];
    assert id in AllItems(s);
    assert WellNamed(id);
    assert id !in s.containers;
    FindContainerResolves(s, id);
    ContainerUnique(s, PoolId);
    WithoutUniqueSplit(p, IndexOf(p, id));
  }

  // ---------------------------------------------------------------------
  // The starting state and the topic-switch guard

  /** `DEFAULT_CREATE_TEMPLATE`. */
  const DefaultTemplate: string := "blank"

  /** `defaultInitialValues`: a pool holding a copy of the default topic's items, and no tiers. */
  function DefaultState(): (r: ItemsState)
  {
    ItemsState(map[PoolId := ItemTemplates.GetTemplateItems(DefaultTemplate)], [], None)
  }

  /** The default create state is valid, with an empty pool and no tiers. */
  lemma DefaultStateIsEmpty()
    ensures Valid(DefaultState())
    ensures DefaultState() == ItemsState(map[PoolId := []], [], None)
  {
    ItemTemplates.BlankIsEmpty();
    assert AllItems(DefaultState()) == [];
  }

  /** Every topic's items are distinct, and none of them can be mistaken for an id. */
  lemma TemplateItemsOk(topic: string)
    ensures ItemsOk(ItemTemplates.GetTemplateItems(topic))
  {
    var items := ItemTemplates.GetTemplateItems(topic);
    ItemTemplates.TemplateItemsWellFormed(topic);
    forall x | x in items ensures WellNamed(x) {
      var i :| 0 <= i < |items| && items[i] == x;
      assert 'A' <= x[0] <= 'Z';
      if |x| >= |TierPrefix| {
        assert x[..|TierPrefix|][0] == x[0];
      }
      assert x[0] != PoolId[0] && x[0] != NewTierZone[0];
    }
  }

  /**
    The baseline the guard compares the pool with: `TEMPLATES[activeTemplate]`
    read as a set, which is empty for a topic that is not predefined.
   */
  function Baseline(activeTemplate: string): (r: seq<string>)
  {
    ItemTemplates.GetTemplateItems(activeTemplate)
  }

  /**
    The guard's test for custom items: the pool and the baseline, as sets,
    differ in size, or the pool holds something the baseline lacks.
   */
  predicate HasCustomItems(s: ItemsState, activeTemplate: string)
  {
    var current := set x | x in Pool(s);
    var baseline := set x | x in Baseline(activeTemplate);
    |current| != |baseline| || exists x :: x in Pool(s) && x !in baseline
  }

  /** Switching topic discards work: there are ranked tiers, or the pool differs from the baseline. */
  predicate NeedsConfirmation(s: ItemsState, activeTemplate: string)
  {
    |s.tierOrder| > 0 || HasCustomItems(s, activeTemplate)
  }

  /** The size-and-inclusion test is exactly set inequality. */
  lemma {:induction false} CustomItemsMeansDifferentSet(s: ItemsState, activeTemplate: string)
    ensures HasCustomItems(s, activeTemplate)
        <==> (set x | x in Pool(s)) != (set x | x in Baseline(activeTemplate))
  {
    var a := set x | x in Pool(s);
    var b := set x | x in Baseline(activeTemplate);
    if a <= b && a != b {
      ProperSubsetSmaller(a, b);
    }
  }

  datatype Decision = Cancel | Proceed(items: ItemsState, template: string)

  /**
    `handleChangeTemplate(key)`: when switching would discard work and the
    user declines the confirmation, nothing changes; otherwise the new topic
    becomes active and the state is reset to no tiers and a pool holding the
    topic's items in shuffled order (`shuffled`, the result of the random
    sort), keeping the state's other fields.
   */
  function RequestReset(s: ItemsState, activeTemplate: string, key: string, confirmed: bool, shuffled: seq<string>): (d: Decision)
    requires ItemTemplates.IsPredefinedTemplate(key)
    requires multiset(shuffled) == multiset(ItemTemplates.GetTemplateItems(key))
    ensures d.Cancel? <==> NeedsConfirmation(s, activeTemplate) && !confirmed
    ensures d.Proceed? ==> (&& d.template == key && d.items.tierOrder == [] && Pool(d.items) == shuffled
                            && d.items.containers.Keys == {PoolId} && d.items.otherBlobIds == s.otherBlobIds)
  {
    if NeedsConfirmation(s, activeTemplate) && !confirmed then Cancel
    else Proceed(s.(tierOrder := [], containers := map[PoolId := shuffled]), key)
  }

  /** A reset state is valid and its pool is a permutation of the chosen topic's items. */
  lemma ResetIsValid(s: ItemsState, activeTemplate: string, key: string, confirmed: bool, shuffled: seq<string>)
    requires ItemTemplates.IsPredefinedTemplate(key)
    requires multiset(shuffled) == multiset(ItemTemplates.GetTemplateItems(key))
    ensures RequestReset(s, activeTemplate, key, confirmed, shuffled).Proceed? ==>
              var next := RequestReset(s, activeTemplate, key, confirmed, shuffled).items;
              Valid(next) && multiset(AllItems(next)) == multiset(ItemTemplates.GetTemplateItems(key))
  {
    var d := RequestReset(s, activeTemplate, key, confirmed, shuffled);
    if d.Proceed? {
      assert AllItems(d.items) == [] + shuffled;
      TemplateItemsOk(key);
      ItemsOkSub(ItemTemplates.GetTemplateItems(key), shuffled);
    }
  }

  // ---------------------------------------------------------------------
  // Saving and loading

  /** A ranking record: `rankedTiers`, `unrankedItems` and `otherBlobIds`. */
  datatype Ranking = Ranking(
    rankedTiers: seq<seq<string>>,
    unrankedItems: seq<string>,
    otherBlobIds: Option<seq<string>>)

  /**
    The record `handleFinishRanking` saves: the tiers' lists in rank order,
    the pool as the unranked items, and the given record links.
   */
  function Save(s: ItemsState, links: Option<seq<string>>): (r: Ranking)
    requires TiersPresent(s)
    ensures |r.rankedTiers| == |s.tierOrder|
    ensures forall i :: 0 <= i < |s.tierOrder| ==> r.rankedTiers[i] == s.containers[s.tierOrder[i]]
    ensures r.unrankedItems == Pool(s) && r.otherBlobIds == links
    ensures Flatten(r.rankedTiers) + r.unrankedItems == AllItems(s)
  {
    ListsOfFlatten(s.containers, s.tierOrder);
    Ranking(ListsOf(s.containers, s.tierOrder), Pool(s), links)
  }

  /**
    The links saved with the record: the state's own when an existing
    ranking is edited, otherwise the originating ranking's id when there is
    a non-empty one, else none.
   */
  function SavedLinks(s: ItemsState, editing: bool, originId: Option<string>): (r: Option<seq<string>>)
    ensures editing ==> r == s.otherBlobIds
    ensures !editing ==> r == Some(if originId.Some? && originId.value != "" then [originId.value] else [])
  {
    if editing then s.otherBlobIds
    else if originId.Some? && originId.value != "" then Some([originId.value])
    else Some([])
  }

  /** A record a valid state can be rebuilt from: no empty tier, every item once, no id-like item. */
  ghost predicate WellFormedRecord(r: Ranking)
  {
    && (forall i :: 0 <= i < |r.rankedTiers| ==> r.rankedTiers[i] != [])
    && Unique(Flatten(r.rankedTiers) + r.unrankedItems)
    && (forall x :: x in Flatten(r.rankedTiers) + r.unrankedItems ==> WellNamed(x))
  }

  /** What a valid state saves is a well-formed record. */
  lemma SaveIsWellFormed(s: ItemsState, links: Option<seq<string>>)
    requires Valid(s)
    ensures WellFormedRecord(Save(s, links))
  {
    var r := Save(s, links);
    forall i | 0 <= i < |r.rankedTiers| ensures r.rankedTiers[i] != [] {
      assert s.tierOrder[i] in s.tierOrder;
    }
  }

  /** Clock readings that never go back: what `Date.now()` gives across one load. */
  predicate NonDecreasing(nows: seq<nat>)
  {
    forall i, j :: 0 <= i < j < |nows| ==> nows[i] <= nows[j]
  }

  /**
    The fresh tier ids of a load: `tier-${Date.now() + index}`, where the
    clock is read once per saved tier and `nows[index]` is that reading.
   */
  function TierIds(nows: seq<nat>): (ids: seq<string>)
    ensures |ids| == |nows|
    ensures forall i :: 0 <= i < |nows| ==> IsTierId(ids[i]) && ids[i] == TierKey(nows[i] + i)
  {
    seq(|nows|, i requires 0 <= i < |nows| => TierKey(nows[i] + i))
  }

  /** While the clock does not go back, the index keeps the load's ids apart. */
  lemma TierIdsUnique(nows: seq<nat>)
    requires NonDecreasing(nows)
    ensures Unique(TierIds(nows))
  {
    var ids := TierIds(nows);
    forall i, j | 0 <= i < j < |nows| ensures ids[i] != ids[j] {
      TierKeyInjective(nows[i] + i, nows[j] + j);
    }
  }

  /** One more saved tier adds one id, made from its own clock reading. */
  lemma TierIdsSnoc(nows: seq<nat>, n: nat)
    requires n < |nows|
    ensures TierIds(nows[..n + 1]) == TierIds(nows[..n]) + [TierKey(nows[n] + n)]
    ensures NonDecreasing(nows) ==> TierKey(nows[n] + n) !in TierIds(nows[..n])
  {
    if NonDecreasing(nows) {
      forall i | 0 <= i < n ensures TierIds(nows[..n])[i] != TierKey(nows[n] + n) {
        TierKeyInjective(nows[i] + i, nows[n] + n);
      }
    }
  }

  /**
    The containers the load loop builds: each saved tier is stored under
    the id made from its reading, so a later tier with the same id
    overwrites an earlier one.
   */
  function RestoreTiers(tiers: seq<seq<string>>, nows: seq<nat>): map<string, seq<string>>
    requires |tiers| == |nows|
    decreases |tiers|
  {
    if tiers == [] then map[]
    else
      var n := |tiers| - 1;
      RestoreTiers(tiers[..n], nows[..n])[TierKey(nows[n] + n) := tiers[n]]
  }

  /** One more saved tier stores it under the id of its own reading. */
  lemma RestoreTiersSnoc(tiers: seq<seq<string>>, nows: seq<nat>, n: nat)
    requires |tiers| == |nows| && n < |tiers|
    ensures RestoreTiers(tiers[..n + 1], nows[..n + 1])
         == RestoreTiers(tiers[..n], nows[..n])[TierKey(nows[n] + n) := tiers[n]]
  {
    assert tiers[..n + 1][..n] == tiers[..n] && nows[..n + 1][..n] == nows[..n];
  }

  /**
    The load loop's containers: exactly the fresh ids, and each id holds the
    saved tier of its last occurrence.
   */
  lemma {:induction false} RestoreTiersHolds(tiers: seq<seq<string>>, nows: seq<nat>)
    requires |tiers| == |nows|
    ensures forall k :: k in RestoreTiers(tiers, nows) <==> k in TierIds(nows)
    ensures forall i :: 0 <= i < |tiers| && TierIds(nows)[i] !in TierIds(nows)[i + 1..] ==>
              RestoreTiers(tiers, nows)[TierIds(nows)[i]] == tiers[i]
    decreases |tiers|
  {
    if tiers != [] {
      var n := |tiers| - 1;
      var prev, id := tiers[..n], TierKey(nows[n] + n);
      var m := RestoreTiers(prev, nows[..n]);
      RestoreTiersHolds(prev, nows[..n]);
      assert RestoreTiers(tiers, nows) == m[id := tiers[n]];
      TierIdsSnoc(nows, n);
      assert nows[..n + 1] == nows && TierIds(nows) == TierIds(nows[..n]) + [id];
      assert tiers == prev + [tiers[n]];
      SnocEntry(m, TierIds(nows[..n]), prev, id, tiers[n]);
    }
  }

  /**
    A map from ids to lists, where each id holds the list of its last
    occurrence, still does so when it is extended by one more id and list.
   */
  lemma SnocEntry(m: map<string, seq<string>>, ids: seq<string>, lists: seq<seq<string>>, id: string, v: seq<string>)
    requires |ids| == |lists|
    requires forall k :: k in m <==> k in ids
    requires forall i :: 0 <= i < |ids| && ids[i] !in ids[i + 1..] ==> m[ids[i]] == lists[i]
    ensures forall k :: k in m[id := v] <==> k in ids + [id]
    ensures forall i :: 0 <= i < |ids| + 1 && (ids + [id])[i] !in (ids + [id])[i + 1..] ==>
              m[id := v][(ids + [id])[i]] == (lists + [v])[i]
  {
    var ids', lists' := ids + [id], lists + [v];
    forall i | 0 <= i < |ids| + 1 && ids'[i] !in ids'[i + 1..]
      ensures m[id := v][ids'[i]] == lists'[i]
    {
      if i < |ids| {
        assert ids'[i + 1..] == ids[i + 1..] + [id];
        assert ids'[i] == ids[i] && lists'[i] == lists[i];
      }
    }
  }

  /**
    `loadRankingForEdit`: the saved tiers get the ids `tier-${Date.now() + index}`
    in saved order, each stored under its id (a repeated id keeps the
    later tier), the unranked items become the pool, and the record's links
    are kept.
   */
  function Restore(data: Ranking, nows: seq<nat>): (s: ItemsState)
    requires |nows| == |data.rankedTiers|
    ensures s.tierOrder == TierIds(nows) && s.otherBlobIds == data.otherBlobIds
    ensures forall k :: k in s.containers <==> k == PoolId || k in s.tierOrder
    ensures forall i :: 0 <= i < |s.tierOrder| && s.tierOrder[i] !in s.tierOrder[i + 1..] ==>
              s.containers[s.tierOrder[i]] == data.rankedTiers[i]
    ensures PoolId in s.containers && s.containers[PoolId] == data.unrankedItems
  {
    RestoreTiersHolds(data.rankedTiers, nows);
    PoolIsNotTierKey(nows);
    ItemsState(RestoreTiers(data.rankedTiers, nows)[PoolId := data.unrankedItems],
               TierIds(nows), data.otherBlobIds)
  }

  /** Loading then saving gives back the record, as long as the clock does not go back during the load. */
  lemma SaveRestore(data: Ranking, nows: seq<nat>)
    requires |nows| == |data.rankedTiers| && NonDecreasing(nows)
    ensures TiersPresent(Restore(data, nows))
    ensures Save(Restore(data, nows), Restore(data, nows).otherBlobIds) == data
  {
    var s := Restore(data, nows);
    TierIdsUnique(nows);
    UniqueNotLater(s.tierOrder);
    var r := Save(s, s.otherBlobIds);
    assert r.rankedTiers == data.rankedTiers;
  }

  lemma PoolIsNotTierKey(nows: seq<nat>)
    ensures PoolId !in TierIds(nows)
  {
    PoolIdIsNotTierId();
  }

  /**
    When the clock steps back by one between two saved tiers, both get the
    same id: the second tier overwrites the first, the id is listed twice,
    and the loaded state is not valid.
   */
  lemma RestoreClockStepBack(data: Ranking, n: nat)
    requires |data.rankedTiers| == 2
    ensures var s := Restore(data, [n + 1, n]);
            && s.tierOrder == [TierKey(n + 1), TierKey(n + 1)]
            && s.containers[TierKey(n + 1)] == data.rankedTiers[1]
            && !Valid(s)
  {
    var nows := [n + 1, n];
    var s := Restore(data, nows);
    assert nows[0] + 0 == nows[1] + 1;
    assert s.tierOrder[0] == s.tierOrder[1];
    assert s.tierOrder[1..][1..] == [];
  }

  /** A well-formed record loads into a valid state, as long as the clock does not go back during the load. */
  lemma RestoreIsValid(data: Ranking, nows: seq<nat>)
    requires WellFormedRecord(data) && |nows| == |data.rankedTiers| && NonDecreasing(nows)
    ensures Valid(Restore(data, nows))
    ensures AllItems(Restore(data, nows)) == Flatten(data.rankedTiers) + data.unrankedItems
  {
    var s := Restore(data, nows);
    TierIdsUnique(nows);
    UniqueNotLater(s.tierOrder);
    SaveRestore(data, nows);
    forall t | t in s.tierOrder ensures s.containers[t] != [] {
      var i :| 0 <= i < |s.tierOrder| && s.tierOrder[i] == t;
      assert s.containers[t] == data.rankedTiers[i];
    }
    assert Shape(s);
  }

  /** Saving then loading keeps the ranked lists, in order, and the pool; only the tier ids are new. */
  lemma RestoreSave(s: ItemsState, nows: seq<nat>)
    requires Valid(s) && |nows| == |s.tierOrder| && NonDecreasing(nows)
    ensures Valid(Restore(Save(s, s.otherBlobIds), nows))
    ensures var t := Restore(Save(s, s.otherBlobIds), nows);
              && |t.tierOrder| == |s.tierOrder|
              && ListsOf(t.containers, t.tierOrder) == ListsOf(s.containers, s.tierOrder)
              && Pool(t) == Pool(s) && t.otherBlobIds == s.otherBlobIds
  {
    var r := Save(s, s.otherBlobIds);
    SaveIsWellFormed(s, s.otherBlobIds);
    RestoreIsValid(r, nows);
    SaveRestore(r, nows);
  }

  /**
    `loadValuesFromOriginFriend`: everything the friend ranked or left
    unranked becomes this state's pool, with no tiers and no links.
   */
  function FromFriend(data: Ranking): (s: ItemsState)
    ensures s.tierOrder == [] && s.containers.Keys == {PoolId} && s.otherBlobIds.None?
    ensures multiset(Pool(s)) == multiset(Flatten(data.rankedTiers)) + multiset(data.unrankedItems)
  {
    ItemsState(map[PoolId := Flatten(data.rankedTiers) + data.unrankedItems], [], None)
  }

  /** A friend's well-formed record seeds a valid state holding exactly the friend's items. */
  lemma FromFriendIsValid(data: Ranking)
    requires WellFormedRecord(data)
    ensures Valid(FromFriend(data))
    ensures AllItems(FromFriend(data)) == Flatten(data.rankedTiers) + data.unrankedItems
  {
    assert AllItems(FromFriend(data)) == [] + Pool(FromFriend(data));
  }
}
