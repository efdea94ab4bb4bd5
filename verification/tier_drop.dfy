/**
 * Dropping items onto a tier of the tier-list screen (`handleDrop` in
 * Rankle/Sources/Views/TierListView.swift). Each dropped item loses its
 * current tier and, when the drop target is a tier, takes that tier's raw
 * value; a drop on the unassigned area leaves it without a tier. The
 * `onUpdate` callback is modelled as the list it would be called with.
 */
module TierDrop {
  import opened Wrappers
  import opened Models

  /** A list together with its item-to-tier assignments (tier raw values keyed by item identifier). */
  datatype TierList = TierList(list: RankleList, tierAssignments: map<Uuid, string>)

  /**
   * Reference outcome of a drop: the dropped items are assigned `tier`, or
   * unassigned when there is none; every other assignment is kept.
   */
  function Dropped(assignments: map<Uuid, string>, itemIds: seq<Uuid>, tier: Option<string>): (r: map<Uuid, string>)
    ensures forall id :: id in itemIds && tier.Some? ==> id in r && r[id] == tier.value
    ensures forall id :: id in itemIds && tier.None? ==> id !in r
    ensures forall id :: id !in itemIds ==> (id in r <==> id in assignments)
    ensures forall id :: id !in itemIds && id in r ==> r[id] == assignments[id]
  {
    match tier
    case Some(t) => assignments + map id | id in itemIds :: t
    case None => assignments - set id | id in itemIds
  }

  /**
   * `handleDrop(itemIds:to:list:)`: walks the dropped identifiers, removing
   * each one's assignment and then assigning the target tier if there is
   * one. The update is handed on, and the drop reported as handled, exactly
   * when at least one identifier was dropped.
   */
  method HandleDrop(itemIds: seq<Uuid>, tier: Option<string>, state: TierList) returns (handled: bool, update: Option<TierList>)
    ensures handled <==> itemIds != []
    ensures update.Some? <==> handled
    ensures update.Some? ==> update.value.list == state.list
    ensures update.Some? ==> update.value.tierAssignments == Dropped(state.tierAssignments, itemIds, tier)
  {
    var updated := state;
    var hasChanges := false;
    var i := 0;
    while i < |itemIds|
      invariant i <= |itemIds|
      invariant hasChanges <==> i > 0
      invariant updated.list == state.list
      invariant forall id :: id in itemIds[..i] && tier.Some? ==>
                  id in updated.tierAssignments && updated.tierAssignments[id] == tier.value
      invariant forall id :: id in itemIds[..i] && tier.None? ==> id !in updated.tierAssignments
      invariant forall id :: id !in itemIds[..i] ==>
                  (id in updated.tierAssignments <==> id in state.tierAssignments)
      invariant forall id :: id !in itemIds[..i] && id in updated.tierAssignments ==>
                  updated.tierAssignments[id] == state.tierAssignments[id]
    {
      var itemId := itemIds[i];
      assert itemIds[..i + 1] == itemIds[..i] + [itemId];
      updated := updated.(tierAssignments := updated.tierAssignments - {itemId});
      if tier.Some? {
        updated := updated.(tierAssignments := updated.tierAssignments[itemId := tier.value]);
      }
      hasChanges := true;
      i := i + 1;
    }
    assert itemIds[..i] == itemIds;
    if hasChanges {
      update := Some(updated);
    } else {
      update := None;
    }
    handled := hasChanges;
  }

  /**
   * Only the last of two drops of the same items counts: dropping them on
   * the same tier twice is dropping them once, and moving them to a tier and
   * then to the unassigned area only unassigns them.
   */
  lemma LastDropWins(assignments: map<Uuid, string>, itemIds: seq<Uuid>, first: Option<string>, second: Option<string>)
    ensures Dropped(Dropped(assignments, itemIds, first), itemIds, second) == Dropped(assignments, itemIds, second)
  {
  }
}
