/**
  The ranking page component (src/app/rankings/new/page.tsx) as an object:
  its two pieces of state, `items` and `activeTemplate`, and the handlers
  that replace them. Each handler is specified by the function of the
  Partition or Drag module that describes its update.
 */
module Page {
  import opened Seqs
  import opened Text
  import opened Partition
  import opened Drag
  import ItemTemplates

  /**
    The load loop of `loadRankingForEdit`: one tier id per saved tier, in
    saved order, made from the clock reading `nows[index]` taken in that
    iteration; then the unranked items as the pool.
   */
  method RestoreItems(data: Ranking, nows: seq<nat>) returns (s: ItemsState)
    requires |nows| == |data.rankedTiers|
    ensures s == Restore(data, nows)
  {
    var tiers := data.rankedTiers;
    var newTierOrder: seq<string> := [];
    var newContainers: map<string, seq<string>> := map[];
    var index := 0;
    while index < |tiers|
      invariant 0 <= index <= |tiers|
      invariant newTierOrder == TierIds(nows[..index])
      invariant newContainers == RestoreTiers(tiers[..index], nows[..index])
    {
      var tierId := TierKey(nows[index] + index);
      newTierOrder := newTierOrder + [tierId];
      newContainers := newContainers[tierId := tiers[index]];
      TierIdsSnoc(nows, index);
      RestoreTiersSnoc(tiers, nows, index);
      index := index + 1;
    }
    assert tiers[..index] == tiers && nows[..index] == nows;
    newContainers := newContainers[PoolId := data.unrankedItems];
    s := ItemsState(newContainers, newTierOrder, data.otherBlobIds);
  }

  class RankingPage {
    var items: ItemsState
    var activeTemplate: string

    /** The partition invariants hold for the current items. */
    ghost predicate Consistent()
      reads this
    {
      Valid(items)
    }

    /** The page starts on the default topic with its default items. */
    constructor ()
      ensures items == DefaultState() && activeTemplate == DefaultTemplate
      ensures Consistent()
    {
      items := DefaultState();
      activeTemplate := DefaultTemplate;
      DefaultStateIsEmpty();
    }

    /** `setItems(defaultInitialValues)`: the create page without a record to load. */
    method LoadDefault()
      modifies this
      ensures items == DefaultState() && activeTemplate == old(activeTemplate)
      ensures Consistent()
    {
      items := DefaultState();
      DefaultStateIsEmpty();
    }

    /** `loadRankingForEdit`, given the fetched record and the clock reading taken for each saved tier. */
    method LoadRankingForEdit(data: Ranking, nows: seq<nat>)
      requires |nows| == |data.rankedTiers|
      modifies this
      ensures items == Restore(data, nows) && activeTemplate == old(activeTemplate)
      ensures WellFormedRecord(data) && NonDecreasing(nows) ==> Consistent()
    {
      items := RestoreItems(data, nows);
      if WellFormedRecord(data) && NonDecreasing(nows) {
        RestoreIsValid(data, nows);
      }
    }

    /** `loadValuesFromOriginFriend`, given the friend's fetched record. */
    method LoadValuesFromOriginFriend(data: Ranking)
      modifies this
      ensures items == FromFriend(data) && activeTemplate == old(activeTemplate)
      ensures WellFormedRecord(data) ==> Consistent()
    {
      items := ItemsState(map[PoolId := Flatten(data.rankedTiers) + data.unrankedItems], [], None);
      if WellFormedRecord(data) {
        FromFriendIsValid(data);
      }
    }

    /**
      `addNewValue`: reports (the page's alert) a duplicate; otherwise adds
      the trimmed value to the pool when it is not empty.
     */
    method AddNewValue(value: string) returns (duplicate: bool)
      requires PoolId in items.containers
      modifies this
      ensures items == AddValue(old(items), value) && activeTemplate == old(activeTemplate)
      ensures duplicate <==> Trim(value) != [] && Contains(old(items), Trim(value))
      ensures old(Consistent()) && WellNamed(Trim(value)) ==> Consistent()
    {
      if old(Consistent()) && WellNamed(Trim(value)) {
        AddValuePreservesValid(items, value);
      }
      var trimmedValue := Trim(value);
      if trimmedValue == [] {
        return false;
      }
      if Contains(items, trimmedValue) {
        return true;
      }
      items := items.(containers := items.containers[PoolId := items.containers[PoolId] + [trimmedValue]]);
      duplicate := false;
    }

    /**
      `handleChangeTemplate(key)`: `confirmed` is the user's answer to the
      confirmation, asked only when work would be discarded, and `shuffled`
      the randomly sorted items of the topic. Returns whether the switch was
      cancelled.
     */
    method HandleChangeTemplate(key: string, confirmed: bool, shuffled: seq<string>) returns (cancelled: bool)
      requires ItemTemplates.IsPredefinedTemplate(key)
      requires multiset(shuffled) == multiset(ItemTemplates.GetTemplateItems(key))
      modifies this
      ensures var d := RequestReset(old(items), old(activeTemplate), key, confirmed, shuffled);
              && (cancelled <==> d.Cancel?)
              && (d.Cancel? ==> items == old(items) && activeTemplate == old(activeTemplate))
              && (d.Proceed? ==> items == d.items && activeTemplate == d.template)
      ensures !cancelled ==> Consistent()
    {
      ResetIsValid(items, activeTemplate, key, confirmed, shuffled);
      var hasRankedItems := |items.tierOrder| > 0;
      var customItemsInParkingLot := HasCustomItems(items, activeTemplate);
      if (hasRankedItems || customItemsInParkingLot) && !confirmed {
        return true;
      }
      activeTemplate := key;
      items := items.(tierOrder := [], containers := map[PoolId := shuffled]);
      cancelled := false;
    }

    /** `handleDeleteItem(id)`: returns whether the deletion was refused (the id is in a tier). */
    method HandleDeleteItem(id: string) returns (refused: bool)
      modifies this
      ensures items == DeleteItem(old(items), id) && activeTemplate == old(activeTemplate)
      ensures refused <==> FindContainer(old(items), id).Some? && FindContainer(old(items), id) != Some(PoolId)
      ensures old(Consistent()) ==> Consistent()
    {
      if old(Consistent()) {
        DeletePreservesValid(items, id);
      }
      refused := false;
      var containerKey := FindContainer(items, id);
      if containerKey.Some? {
        if containerKey.value != PoolId {
          refused := true;
          return;
        }
        items := items.(containers := items.containers[PoolId := Without(items.containers[PoolId], id)]);
      }
    }

    /** `handleDragEnd`, with `now` the clock reading a new tier would be named after. */
    method HandleDragEnd(active: string, over: Option<string>, now: nat)
      requires Consistent() && Draggable(items, active)
      modifies this
      ensures items == DragEnd(old(items), active, over, now) && activeTemplate == old(activeTemplate)
      ensures TierKey(now) !in old(items).containers ==> Consistent()
      ensures multiset(AllItems(items)) == multiset(AllItems(old(items))) || TierKey(now) in old(items).containers
    {
      if TierKey(now) !in items.containers {
        DragEndPreservesValid(items, active, over, now);
      }
      items := DragEnd(items, active, over, now);
    }

    /**
      The record `handleFinishRanking` saves: the state's links when an
      existing ranking is edited, otherwise the originating ranking's id
      when there is one.
     */
    method FinishRanking(editing: bool, originId: Option<string>) returns (record: Ranking)
      requires TiersPresent(items)
      ensures record == Save(items, SavedLinks(items, editing, originId))
      ensures Consistent() ==> WellFormedRecord(record)
    {
      var rankedTiersAsArray := ListsOf(items.containers, items.tierOrder);
      var unrankedItems := Pool(items);
      var links := if editing then items.otherBlobIds
                   else if originId.Some? && originId.value != "" then Some([originId.value])
                   else Some([]);
      record := Ranking(rankedTiersAsArray, unrankedItems, links);
      if Consistent() {
        SaveIsWellFormed(items, links);
      }
    }
  }
}
