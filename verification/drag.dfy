/**
  `handleDragEnd` (src/app/rankings/new/page.tsx): which branch a drop of
  the dragged id `active` on the target id `over` takes, and the state each
  branch produces. The dragged id is a tier (its sortable) or an item; the
  target is a tier, an item, the pool, the new-tier zone or nothing.
 */
module Drag {
  import opened Seqs
  import opened Partition
  import opened Text

  /** The branches of the handler, in the order it tests them. */
  datatype Scenario =
    | NoTarget                                 // dropped outside every droppable
    | TierOnNewTierZone                        // a tier dropped on the new-tier zone: refused
    | ReorderTiers                             // a tier dropped on another tier
    | ActiveUnresolved                         // the dragged id is in no container
    | SpawnTier(source: string)                // an item dropped on the new-tier zone
    | OverUnresolved                           // the target is in no container
    | DropInPlace                              // dropped on itself
    | ReorderWithin(container: string)         // moved inside one container
    | MoveBetween(source: string, dest: string) // moved to another container

  /** The branches that leave the state as it is. */
  predicate Ignored(sc: Scenario)
  {
    sc.NoTarget? || sc.TierOnNewTierZone? || sc.ActiveUnresolved? || sc.OverUnresolved? || sc.DropInPlace?
  }

  /** The branch `handleDragEnd` takes. */
  function Classify(s: ItemsState, active: string, over: Option<string>): (sc: Scenario)
    ensures sc.NoTarget? <==> over.None?
    ensures sc.TierOnNewTierZone? ==> IsTierId(active) && over == Some(NewTierZone)
    ensures sc.ReorderTiers? ==> over.Some? && IsTierId(active) && IsTierId(over.value) && active != over.value
    ensures sc.ActiveUnresolved? ==> over.Some? && FindContainer(s, active).None?
    ensures sc.OverUnresolved? ==> (&& over.Some? && over.value != NewTierZone
                                    && FindContainer(s, active).Some? && FindContainer(s, over.value).None?)
    ensures sc.SpawnTier? ==> (&& over == Some(NewTierZone) && !IsTierId(active)
                               && FindContainer(s, active) == Some(sc.source))
    ensures sc.ReorderWithin? ==> (&& over.Some? && active != over.value
                                   && FindContainer(s, active) == Some(sc.container)
                                   && FindContainer(s, over.value) == Some(sc.container))
    ensures sc.MoveBetween? ==> (&& over.Some? && sc.source != sc.dest
                                 && FindContainer(s, active) == Some(sc.source)
                                 && FindContainer(s, over.value) == Some(sc.dest))
    ensures sc.DropInPlace? ==> over == Some(active) && FindContainer(s, active).Some?
  {
    if over.None? then NoTarget
    else
      var o := over.value;
      if IsTierId(active) && o == NewTierZone then TierOnNewTierZone
      else if IsTierId(active) && IsTierId(o) && active != o then ReorderTiers
      else match FindContainer(s, active)
        case None => ActiveUnresolved
        case Some(src) =>
          if o == NewTierZone then SpawnTier(src)
          else match FindContainer(s, o)
            case None => OverUnresolved
            case Some(dst) =>
              if src != dst then MoveBetween(src, dst)
              else if active == o then DropInPlace
              else ReorderWithin(src)
  }

  // ---------------------------------------------------------------------
  // The four branches that change the state

  /** Scenario 1: the dragged tier takes the target tier's place; the others keep their order. */
  function MoveTier(s: ItemsState, active: string, over: string): (r: ItemsState)
    requires active in s.tierOrder
    ensures r.containers == s.containers && r.otherBlobIds == s.otherBlobIds
    ensures |r.tierOrder| == |s.tierOrder| && multiset(r.tierOrder) == multiset(s.tierOrder)
    ensures over in s.tierOrder ==>
              var j := IndexOf(s.tierOrder, over);
              && r.tierOrder[j] == active
              && RemoveAt(r.tierOrder, j) == RemoveAt(s.tierOrder, IndexOf(s.tierOrder, active))
    ensures over !in s.tierOrder ==>
              r.tierOrder == RemoveAt(s.tierOrder, IndexOf(s.tierOrder, active)) + [active]
  {
    ArrayMovePlaces(s.tierOrder, IndexOf(s.tierOrder, active), IndexOf(s.tierOrder, over));
    s.(tierOrder := ArrayMove(s.tierOrder, IndexOf(s.tierOrder, active), IndexOf(s.tierOrder, over)))
  }

  /**
    Scenario 2: the dragged item leaves its container for a new last tier
    `tier-${now}` of its own, listed last; a tier it leaves empty is
    deleted. A clock reading that names an existing container makes the page
    overwrite that container, so `SpawnFresh` states the rest for a fresh id.
   */
  function Spawn(s: ItemsState, active: string, source: string, now: nat): (r: ItemsState)
    requires source in s.containers
    ensures r.otherBlobIds == s.otherBlobIds
    ensures |r.tierOrder| > 0 && r.tierOrder[|r.tierOrder| - 1] == TierKey(now)
  {
    var id := TierKey(now);
    var rest := Without(s.containers[source], active);
    var c := s.containers[source := rest][id := [active]];
    if |rest| == 0 && source != PoolId then
      s.(tierOrder := Without(s.tierOrder, source) + [id], containers := c - {source})
    else
      s.(tierOrder := s.tierOrder + [id], containers := c)
  }

  /**
    With a fresh id the new tier holds just the item and comes last; the
    source keeps what is left, or is deleted as an emptied tier; every other
    container is kept.
   */
  lemma SpawnFresh(s: ItemsState, active: string, source: string, now: nat)
    requires source in s.containers && TierKey(now) !in s.containers
    ensures var r, id := Spawn(s, active, source, now), TierKey(now);
            id in r.containers && r.containers[id] == [active]
    ensures var r, rest := Spawn(s, active, source, now), Without(s.containers[source], active);
            && (source in r.containers <==> source == PoolId || rest != [])
            && (source in r.containers ==> r.containers[source] == rest)
    ensures var r := Spawn(s, active, source, now);
            r.tierOrder == (if source in r.containers then s.tierOrder else Without(s.tierOrder, source)) + [TierKey(now)]
    ensures var r := Spawn(s, active, source, now);
            forall k :: k in r.containers ==> k in s.containers || k == TierKey(now)
    ensures var r := Spawn(s, active, source, now);
            forall k :: k in s.containers && k != source ==> k in r.containers && r.containers[k] == s.containers[k]
  {
    var id, rest := TierKey(now), Without(s.containers[source], active);
    SpawnIsDetachThenAppend(s, active, source, now);
    DetachedKeeps(s, source, rest);
  }

  /**
    Scenario 3a: within one container the dragged item takes the target's
    place. A target that is not in the list (the container itself) sends the
    item to the end; a dragged id that is not in the list (a tier dropped on
    one of its own items) moves the list's last item instead.
   */
  function ReorderIn(s: ItemsState, active: string, over: string, k: string): (r: ItemsState)
    requires k in s.containers && s.containers[k] != []
    ensures r.tierOrder == s.tierOrder && r.otherBlobIds == s.otherBlobIds
    ensures r.containers.Keys == s.containers.Keys
    ensures forall j :: j in s.containers && j != k ==> r.containers[j] == s.containers[j]
    ensures |r.containers[k]| == |s.containers[k]| && multiset(r.containers[k]) == multiset(s.containers[k])
    ensures var l, from := s.containers[k], TakenFrom(s.containers[k], active);
            && (over in l ==> (&& r.containers[k][IndexOf(l, over)] == l[from]
                               && RemoveAt(r.containers[k], IndexOf(l, over)) == RemoveAt(l, from)))
            && (over !in l ==> r.containers[k] == RemoveAt(l, from) + [l[from]])
  {
    var l := s.containers[k];
    ArrayMovePlaces(l, IndexOf(l, active), IndexOf(l, over));
    s.(containers := s.containers[k := ArrayMove(l, IndexOf(l, active), IndexOf(l, over))])
  }

  /** Where `splice(indexOf(active), 1)` takes from: the dragged item, else (index -1) the last one. */
  function TakenFrom(l: seq<string>, active: string): (i: nat)
    requires l != []
    ensures i < |l|
    ensures active in l ==> l[i] == active
    ensures active !in l ==> i == |l| - 1
  {
    SpliceStart(|l|, IndexOf(l, active))
  }

  /** Where the moved item goes: before the target when the list holds it, else at the end. */
  function DropAt(l: seq<string>, over: string): (j: nat)
    ensures j <= |l|
    ensures over in l ==> j < |l| && l[j] == over && over !in l[..j]
    ensures over !in l ==> j == |l|
  {
    var d := IndexOf(l, over);
    if d >= 0 then d else |l|
  }

  /**
    Scenario 3b: the item taken from the source goes into the destination at
    the target's place; a tier left empty is deleted, every other container
    is kept as it was.
   */
  function MoveAcross(s: ItemsState, active: string, over: string, source: string, dest: string): (r: ItemsState)
    requires source in s.containers && dest in s.containers && source != dest
    requires s.containers[source] != []
    ensures r.otherBlobIds == s.otherBlobIds
    ensures var from, to := s.containers[source], s.containers[dest];
            var i, j := TakenFrom(from, active), DropAt(to, over);
            && dest in r.containers && r.containers[dest] == InsertAt(to, j, from[i])
            && (source in r.containers <==> source == PoolId || |from| > 1)
            && (source in r.containers ==> r.containers[source] == RemoveAt(from, i) && r.tierOrder == s.tierOrder)
            && (source !in r.containers ==> r.tierOrder == Without(s.tierOrder, source))
    ensures forall k :: k in r.containers ==> k in s.containers
    ensures forall k :: k in s.containers && k != source && k != dest ==> k in r.containers && r.containers[k] == s.containers[k]
  {
    var from, to := s.containers[source], s.containers[dest];
    var i := TakenFrom(from, active);
    var moved := from[i];
    var rest := RemoveAt(from, i);
    var placed := InsertAt(to, DropAt(to, over), moved);
    var c := s.containers[source := rest][dest := placed];
    if |rest| == 0 && source != PoolId then
      s.(tierOrder := Without(s.tierOrder, source), containers := c - {source})
    else
      s.(containers := c)
  }

  // ---------------------------------------------------------------------
  // The handler

  /** The dragged id is one of the page's draggables: a tier, or an item in some container. */
  ghost predicate Draggable(s: ItemsState, active: string)
  {
    active in s.tierOrder || Contains(s, active)
  }

  /** In a valid state a draggable resolves to a non-empty container: itself if a tier, the one holding it if an item. */
  lemma DraggableResolves(s: ItemsState, active: string)
    requires Valid(s) && Draggable(s, active)
    ensures active != PoolId
    ensures IsTierId(active) <==> active in s.tierOrder
    ensures FindContainer(s, active).Some?
    ensures IsTierId(active) ==> FindContainer(s, active) == Some(active) && !Contains(s, active)
    ensures !IsTierId(active) ==> (&& active !in s.containers
                                   && active in s.containers[FindContainer(s, active).value])
    ensures s.containers[FindContainer(s, active).value] != []
  {
    PoolIsNotATier(s);
    ContainsIsMembership(s, active);
    if active !in s.tierOrder {
      var k :| k in s.containers && active in s.containers[k];
      FindContainerResolves(s, active);
    }
  }

  /**
    `handleDragEnd`: the branch `Classify` picks, applied to the state.
    The page's handlers only ever see valid states and rendered draggables.
   */
  function DragEnd(s: ItemsState, active: string, over: Option<string>, now: nat): (r: ItemsState)
    requires Valid(s) && Draggable(s, active)
    ensures r.otherBlobIds == s.otherBlobIds
    ensures Ignored(Classify(s, active, over)) ==> r == s
  {
    DraggableResolves(s, active);
    match Classify(s, active, over)
    case ReorderTiers => MoveTier(s, active, over.value)
    case SpawnTier(source) => Spawn(s, active, source, now)
    case ReorderWithin(k) => ReorderIn(s, active, over.value, k)
    case MoveBetween(source, dest) => MoveAcross(s, active, over.value, source, dest)
    case _ => s
  }

  // ---------------------------------------------------------------------
  // Every branch keeps the partition's invariants and the item collection

  /** Reordering the tiers keeps the invariants and every item. */
  lemma MoveTierPreservesValid(s: ItemsState, active: string, over: string)
    requires Valid(s) && active in s.tierOrder
    ensures Valid(MoveTier(s, active, over))
    ensures multiset(AllItems(MoveTier(s, active, over))) == multiset(AllItems(s))
  {
    var r := MoveTier(s, active, over);
    MoveInOrder(s.containers, s.tierOrder, IndexOf(s.tierOrder, active), IndexOf(s.tierOrder, over));
    assert AllItems(r) == TierItems(s.containers, r.tierOrder) + Pool(s);
    ItemsOkSub(AllItems(s), AllItems(r));
    UniquePermutation(s.tierOrder, r.tierOrder);
    assert forall t :: t in r.tierOrder <==> t in multiset(s.tierOrder);
  }

  /** Reordering inside one container keeps the invariants and every item. */
  lemma ReorderInPreservesValid(s: ItemsState, active: string, over: string, k: string)
    requires Valid(s) && k in s.containers && s.containers[k] != []
    ensures Valid(ReorderIn(s, active, over, k))
    ensures multiset(AllItems(ReorderIn(s, active, over, k))) == multiset(AllItems(s))
  {
    var r := ReorderIn(s, active, over, k);
    var v := r.containers[k];
    PoolIsNotATier(s);
    assert r == s.(containers := s.containers[k := v]);
    AllItemsUpdate(s, k, v);
    MultisetGain(multiset(AllItems(r)), multiset(AllItems(s)), multiset(v), multiset{});
    ItemsOkSub(AllItems(s), AllItems(r));
    ReorderInShape(s, active, over, k);
  }

  lemma ReorderInShape(s: ItemsState, active: string, over: string, k: string)
    requires Shape(s) && k in s.containers && s.containers[k] != []
    ensures Shape(ReorderIn(s, active, over, k))
  {
    var r := ReorderIn(s, active, over, k);
    assert |r.containers[k]| == |multiset(s.containers[k])|;
    forall t | t in r.tierOrder ensures t in r.containers && IsTierId(t) && r.containers[t] != [] {
      assert t in s.containers;
    }
  }

  /** Spawning a tier with a fresh id keeps the invariants and every item. */
  lemma SpawnPreservesValid(s: ItemsState, active: string, source: string, now: nat)
    requires Valid(s) && source in s.containers && active in s.containers[source]
    requires TierKey(now) !in s.containers
    ensures Valid(Spawn(s, active, source, now))
    ensures multiset(AllItems(Spawn(s, active, source, now))) == multiset(AllItems(s))
  {
    PoolIsNotATier(s);
    ContainerUnique(s, source);
    SpawnItems(s, active, source, now);
    ItemsOkSub(AllItems(s), AllItems(Spawn(s, active, source, now)));
    SpawnShape(s, active, source, now);
  }

  /** The source's list replaced by `rest`, and the source deleted when that leaves a tier empty. */
  ghost function Detached(s: ItemsState, source: string, rest: seq<string>): ItemsState
  {
    var s1 := s.(containers := s.containers[source := rest]);
    if |rest| == 0 && source != PoolId then
      s1.(containers := s1.containers - {source}, tierOrder := Without(s.tierOrder, source))
    else s1
  }

  /** What a detach keeps: the source with `rest` unless it was a tier left empty, and every other container. */
  lemma DetachedKeeps(s: ItemsState, source: string, rest: seq<string>)
    requires source in s.containers
    ensures var d := Detached(s, source, rest);
            && (source in d.containers <==> source == PoolId || rest != [])
            && (source in d.containers ==> d.containers[source] == rest && d.tierOrder == s.tierOrder)
            && (source !in d.containers ==> d.tierOrder == Without(s.tierOrder, source))
    ensures forall k :: k in Detached(s, source, rest).containers ==> k in s.containers
    ensures forall k :: k in s.containers && k != source ==>
              k in Detached(s, source, rest).containers && Detached(s, source, rest).containers[k] == s.containers[k]
  {
  }

  lemma DetachedItems(s: ItemsState, source: string, rest: seq<string>)
    requires Unique(s.tierOrder) && PoolId !in s.tierOrder
    requires source in s.containers && (source == PoolId || source in s.tierOrder)
    ensures multiset(AllItems(Detached(s, source, rest))) + multiset(s.containers[source])
         == multiset(AllItems(s)) + multiset(rest)
    ensures forall t :: t in Detached(s, source, rest).tierOrder ==> t in s.tierOrder
  {
    var s1 := s.(containers := s.containers[source := rest]);
    AllItemsUpdate(s, source, rest);
    WithoutSub(s.tierOrder, source);
    if |rest| == 0 && source != PoolId {
      AllItemsRemoveEmpty(s1, source);
    }
  }

  /** With a fresh id, a spawn is the detach followed by appending the new tier. */
  lemma SpawnIsDetachThenAppend(s: ItemsState, active: string, source: string, now: nat)
    requires source in s.containers && TierKey(now) != source
    ensures var d := Detached(s, source, Without(s.containers[source], active));
            Spawn(s, active, source, now)
              == d.(containers := d.containers[TierKey(now) := [active]], tierOrder := d.tierOrder + [TierKey(now)])
  {
    var id, rest := TierKey(now), Without(s.containers[source], active);
    var c := s.containers[source := rest];
    assert c[id := [active]] - {source} == (c - {source})[id := [active]];
  }

  /** A spawn with a fresh id moves the item and loses nothing. */
  lemma SpawnItems(s: ItemsState, active: string, source: string, now: nat)
    requires Unique(s.tierOrder) && PoolId !in s.tierOrder && TiersPresent(s) && TierKey(now) !in s.containers
    requires source in s.containers && (source == PoolId || source in s.tierOrder)
    requires Unique(s.containers[source]) && active in s.containers[source]
    ensures multiset(AllItems(Spawn(s, active, source, now))) == multiset(AllItems(s))
  {
    var id, l := TierKey(now), s.containers[source];
    var rest := Without(l, active);
    var d := Detached(s, source, rest);
    UniqueWithout(l, active);
    DetachedItems(s, source, rest);
    MultisetLose(multiset(AllItems(d)), multiset(AllItems(s)), multiset(rest), multiset{active});
    assert id !in d.tierOrder;
    PoolIdIsNotTierId();
    NewTierItems(d, id, active);
    SpawnIsDetachThenAppend(s, active, source, now);
  }

  /** A new last tier holding one item adds just that item. */
  lemma NewTierItems(d: ItemsState, id: string, x: string)
    requires id !in d.tierOrder && id != PoolId
    ensures multiset(AllItems(d.(containers := d.containers[id := [x]], tierOrder := d.tierOrder + [id])))
         == multiset(AllItems(d)) + multiset{x}
  {
    AllItemsAppendTier(d, id, [x]);
    var tiers := TierItems(d.containers, d.tierOrder);
    assert AllItems(d) == tiers + Pool(d);
  }

  /** The containers after a spawn with a fresh id are well-shaped. */
  lemma SpawnShape(s: ItemsState, active: string, source: string, now: nat)
    requires Shape(s) && PoolId !in s.tierOrder && source in s.containers
    requires TierKey(now) !in s.containers
    ensures Shape(Spawn(s, active, source, now))
  {
    var r := Spawn(s, active, source, now);
    var id := TierKey(now);
    SpawnFresh(s, active, source, now);
    var kept := source in r.containers;
    var order := if kept then s.tierOrder else Without(s.tierOrder, source);
    WithoutSub(s.tierOrder, source);
    UniqueSubMultiset(s.tierOrder, order);
    assert id !in order;
    UniqueAppend(order, id);
    forall t | t in r.tierOrder ensures t in r.containers && IsTierId(t) && r.containers[t] != [] {
      if t != id {
        assert t in order;
        assert t in s.tierOrder && (kept || t != source);
      }
    }
    forall k | k in r.containers ensures k == PoolId || k in r.tierOrder {
      if k != id {
        assert k in s.containers;
        assert k == PoolId || k in order;
      }
    }
  }

  /** Moving an item across containers keeps the invariants and every item. */
  lemma MoveAcrossPreservesValid(s: ItemsState, active: string, over: string, source: string, dest: string)
    requires Valid(s) && source in s.containers && dest in s.containers && source != dest
    requires s.containers[source] != []
    ensures Valid(MoveAcross(s, active, over, source, dest))
    ensures multiset(AllItems(MoveAcross(s, active, over, source, dest))) == multiset(AllItems(s))
  {
    PoolIsNotATier(s);
    MoveAcrossItems(s, active, over, source, dest);
    ItemsOkSub(AllItems(s), AllItems(MoveAcross(s, active, over, source, dest)));
    MoveAcrossShape(s, active, over, source, dest);
  }

  /** A move across containers loses nothing. */
  lemma MoveAcrossItems(s: ItemsState, active: string, over: string, source: string, dest: string)
    requires Unique(s.tierOrder) && PoolId !in s.tierOrder
    requires source in s.containers && (source == PoolId || source in s.tierOrder)
    requires dest in s.containers && (dest == PoolId || dest in s.tierOrder)
    requires source != dest && s.containers[source] != []
    ensures multiset(AllItems(MoveAcross(s, active, over, source, dest))) == multiset(AllItems(s))
  {
    var c, order := s.containers, s.tierOrder;
    var from, to := c[source], c[dest];
    var i := TakenFrom(from, active);
    var m := from[i];
    var rest := RemoveAt(from, i);
    var placed := InsertAt(to, DropAt(to, over), m);
    var s1 := s.(containers := c[source := rest]);
    AllItemsUpdate(s, source, rest);
    MultisetLose(multiset(AllItems(s1)), multiset(AllItems(s)), multiset(rest), multiset{m});
    var s2 := s1.(containers := s1.containers[dest := placed]);
    AllItemsUpdate(s1, dest, placed);
    MultisetGain(multiset(AllItems(s2)), multiset(AllItems(s1)), multiset(to), multiset{m});
    var r := MoveAcross(s, active, over, source, dest);
    if |rest| == 0 && source != PoolId {
      AllItemsRemoveEmpty(s2, source);
      assert r == s2.(containers := s2.containers - {source}, tierOrder := Without(order, source));
    } else {
      assert r == s2;
    }
  }

  /** The containers after a move across containers are well-shaped. */
  lemma MoveAcrossShape(s: ItemsState, active: string, over: string, source: string, dest: string)
    requires Shape(s) && PoolId !in s.tierOrder
    requires source in s.containers && dest in s.containers && source != dest
    requires s.containers[source] != []
    ensures Shape(MoveAcross(s, active, over, source, dest))
  {
    var r := MoveAcross(s, active, over, source, dest);
    var kept := source in r.containers;
    WithoutSub(s.tierOrder, source);
    UniqueSubMultiset(s.tierOrder, r.tierOrder);
    forall t | t in r.tierOrder ensures t in r.containers && IsTierId(t) && r.containers[t] != [] {
      assert t in s.tierOrder && (kept || t != source);
    }
    forall k | k in r.containers ensures k == PoolId || k in r.tierOrder {
      assert k in s.containers;
    }
  }

  /**
    A drop keeps the partition's invariants and every item, provided the
    clock reading a spawned tier is named after is not already a container.
   */
  lemma DragEndPreservesValid(s: ItemsState, active: string, over: Option<string>, now: nat)
    requires Valid(s) && Draggable(s, active) && TierKey(now) !in s.containers
    ensures Valid(DragEnd(s, active, over, now))
    ensures multiset(AllItems(DragEnd(s, active, over, now))) == multiset(AllItems(s))
  {
    DraggableResolves(s, active);
    var r := DragEnd(s, active, over, now);
    match Classify(s, active, over)
    case ReorderTiers =>
      assert r == MoveTier(s, active, over.value);
      MoveTierPreservesValid(s, active, over.value);
    case SpawnTier(source) =>
      assert r == Spawn(s, active, source, now);
      SpawnPreservesValid(s, active, source, now);
    case ReorderWithin(k) =>
      assert r == ReorderIn(s, active, over.value, k);
      ReorderInPreservesValid(s, active, over.value, k);
    case MoveBetween(source, dest) =>
      assert r == MoveAcross(s, active, over.value, source, dest);
      MoveAcrossPreservesValid(s, active, over.value, source, dest);
    case _ =>
  }

  // ---------------------------------------------------------------------
  // What a drop means

  /** In a valid state an item is not a container id, and resolves to the container holding it. */
  lemma ItemResolves(s: ItemsState, k: string, x: string)
    requires Valid(s) && k in s.containers && x in s.containers[k]
    ensures WellNamed(x) && x !in s.containers && FindContainer(s, x) == Some(k)
  {
    ContainsIsMembership(s, x);
    FindContainerResolves(s, x);
  }

  /**
    Where an item lands: on the new-tier zone it starts a tier; on an item
    or a container it goes to that container, a reorder when it is its own;
    on itself nothing happens; anything else is ignored.
   */
  lemma ClassifyItemDrop(s: ItemsState, k: string, x: string, o: string)
    requires Valid(s) && k in s.containers && x in s.containers[k]
    ensures Classify(s, x, Some(NewTierZone)) == SpawnTier(k)
    ensures Classify(s, x, Some(x)) == DropInPlace
    ensures o in s.containers ==> Classify(s, x, Some(o)) == (if o == k then ReorderWithin(k) else MoveBetween(k, o))
    ensures forall j :: j in s.containers && o in s.containers[j] && o != x ==>
              Classify(s, x, Some(o)) == (if j == k then ReorderWithin(k) else MoveBetween(k, j))
    ensures o != NewTierZone && o !in s.containers && !Contains(s, o) ==> Classify(s, x, Some(o)) == OverUnresolved
  {
    ItemResolves(s, k, x);
    // The zone's id is not tier-shaped, so it names no container.
    assert NewTierZone[..|TierPrefix|][0] != TierPrefix[0];
    FindContainerResolves(s, o);
    forall j | j in s.containers && o in s.containers[j] {
      ItemResolves(s, j, o);
    }
  }

  /**
    Where a tier lands: on another tier the tiers are reordered; on the
    new-tier zone or itself nothing happens; on the pool or on an item the
    branches for items are taken, with the tier as the source container.
   */
  lemma ClassifyTierDrop(s: ItemsState, t: string, o: string)
    requires Valid(s) && t in s.tierOrder
    ensures Classify(s, t, Some(NewTierZone)) == TierOnNewTierZone
    ensures Classify(s, t, Some(t)) == DropInPlace
    ensures o in s.tierOrder && o != t ==> Classify(s, t, Some(o)) == ReorderTiers
    ensures Classify(s, t, Some(PoolId)) == MoveBetween(t, PoolId)
    ensures forall j :: j in s.containers && o in s.containers[j] ==>
              Classify(s, t, Some(o)) == (if j == t then ReorderWithin(t) else MoveBetween(t, j))
  {
    PoolIsNotATier(s);
    PoolIdIsNotTierId();
    // The zone's id is not tier-shaped, so it names no container.
    assert NewTierZone[..|TierPrefix|][0] != TierPrefix[0];
    forall j | j in s.containers && o in s.containers[j] {
      ItemResolves(s, j, o);
    }
  }

  /**
    A tier dropped on an item is not moved itself: the tier's last item is
    taken out and put at the target item's place (a tier of one item then
    disappears).
   */
  lemma TierDropMovesLastItem(s: ItemsState, t: string, k: string, o: string, now: nat)
    requires Valid(s) && t in s.tierOrder && k in s.containers && o in s.containers[k]
    ensures var r, l := DragEnd(s, t, Some(o), now), s.containers[t];
            && l != []
            && (k != t ==> (&& k in r.containers
                            && r.containers[k] == InsertAt(s.containers[k], IndexOf(s.containers[k], o), l[|l| - 1])
                            && (t in r.containers <==> |l| > 1)
                            && (t in r.containers ==> r.containers[t] == RemoveAt(l, |l| - 1))))
            && (k == t ==> (&& t in r.containers && 0 <= IndexOf(l, o) < |r.containers[t]|
                            && r.containers[t][IndexOf(l, o)] == l[|l| - 1]))
  {
    ClassifyTierDrop(s, t, o);
    DraggableResolves(s, t);
    PoolIsNotATier(s);
    var r := DragEnd(s, t, Some(o), now);
    if k == t {
      assert r == ReorderIn(s, t, o, t);
    } else {
      assert r == MoveAcross(s, t, o, t, k);
    }
  }

  /** Dragging a tier back to the position it came from undoes a tier reorder. */
  lemma MoveTierUndo(s: ItemsState, a: string, b: string, now: nat)
    requires Valid(s) && a in s.tierOrder && b in s.tierOrder && a != b
    ensures var r := DragEnd(s, a, Some(b), now);
            && |r.tierOrder| == |s.tierOrder|
            && var back := r.tierOrder[IndexOf(s.tierOrder, a)];
            && Valid(r) && a in r.tierOrder && back in r.tierOrder && back != a
            && DragEnd(r, a, Some(back), now) == s
  {
    var order := s.tierOrder;
    var i, j := IndexOf(order, a), IndexOf(order, b);
    ClassifyTierDrop(s, a, b);
    var r := DragEnd(s, a, Some(b), now);
    assert r == MoveTier(s, a, b);
    MoveTierPreservesValid(s, a, b);
    var back := r.tierOrder[i];
    assert r.tierOrder[j] == a;
    assert back != a by {
      assert i != j;
    }
    IndexOfUnique(r.tierOrder, i);
    IndexOfUnique(r.tierOrder, j);
    ClassifyTierDrop(r, a, back);
    ArrayMoveInverse(order, i, j);
    assert MoveTier(r, a, back).tierOrder == order;
  }

  /** Moving an item back to the position it came from undoes a move inside one container. */
  lemma ReorderInUndo(s: ItemsState, k: string, x: string, y: string)
    requires Valid(s) && k in s.containers && x in s.containers[k] && y in s.containers[k] && x != y
    ensures var r := ReorderIn(s, x, y, k);
            var back := r.containers[k][IndexOf(s.containers[k], x)];
            && Valid(r) && x in r.containers[k] && back in r.containers[k] && back != x
            && ReorderIn(r, x, back, k) == s
  {
    ContainerUnique(s, k);
    ReorderInPreservesValid(s, x, y, k);
    ReorderInBack(s, k, x, y);
  }

  lemma ReorderInBack(s: ItemsState, k: string, x: string, y: string)
    requires k in s.containers && Unique(s.containers[k])
    requires x in s.containers[k] && y in s.containers[k] && x != y
    ensures var r := ReorderIn(s, x, y, k);
            var back := r.containers[k][IndexOf(s.containers[k], x)];
            && x in r.containers[k] && back in r.containers[k] && back != x
            && ReorderIn(r, x, back, k) == s
  {
    var l := s.containers[k];
    var i, j := IndexOf(l, x), IndexOf(l, y);
    var v := ArrayMove(l, i, j);
    var r := ReorderIn(s, x, y, k);
    assert r == s.(containers := s.containers[k := v]);
    var w := ArrayMove(v, IndexOf(v, x), IndexOf(v, v[i]));
    assert ReorderIn(r, x, v[i], k) == r.(containers := r.containers[k := w]);
    ArrayMoveUndoUnique(l, i, j);
    UpdateBack(s.containers, k, v);
  }

  /** Putting a container's old list back restores the map. */
  lemma UpdateBack(c: map<string, seq<string>>, k: string, v: seq<string>)
    requires k in c
    ensures c[k := v][k := c[k]] == c
  {
  }

  /** Dragging an item back to the position it came from undoes a reorder inside its container. */
  lemma ReorderWithinUndo(s: ItemsState, k: string, x: string, y: string, now: nat)
    requires Valid(s) && k in s.containers && x in s.containers[k] && y in s.containers[k] && x != y
    ensures var r := DragEnd(s, x, Some(y), now);
            && k in r.containers && |r.containers[k]| == |s.containers[k]|
            && var back := r.containers[k][IndexOf(s.containers[k], x)];
            && Valid(r) && back != x && x in r.containers[k]
            && DragEnd(r, x, Some(back), now) == s
  {
    ClassifyItemDrop(s, k, x, y);
    var r := DragEnd(s, x, Some(y), now);
    assert r == ReorderIn(s, x, y, k);
    ReorderInUndo(s, k, x, y);
    var back := r.containers[k][IndexOf(s.containers[k], x)];
    ClassifyItemDrop(r, k, x, back);
    assert DragEnd(r, x, Some(back), now) == ReorderIn(r, x, back, k);
  }

  /**
    `addNewValue` accepts a value whose trimmed text is shaped like a tier
    id. In any valid state the result is no longer valid, and the drop
    handler treats the new item as a tier: it can never be dropped into a
    new tier.
   */
  lemma TierShapedItemIsStuck(s: ItemsState, value: string)
    requires Valid(s) && IsTierId(Trim(value))
    ensures var r, v := AddValue(s, value), Trim(value);
            && PoolId in r.containers && r.containers[PoolId] == s.containers[PoolId] + [v]
            && !Valid(r)
            && Classify(r, v, Some(NewTierZone)) == TierOnNewTierZone
  {
    var v := Trim(value);
    ContainsIsMembership(s, v);
    var r := AddValue(s, value);
    assert v in Pool(r);
    assert v in AllItems(r);
  }
}
