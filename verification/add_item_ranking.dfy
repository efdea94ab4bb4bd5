/**
 * The session that ranks newly added items into an already ranked list
 * (Rankle/Sources/ViewModels/AddItemRankingViewModel.swift): each new item is
 * placed by binary insertion, and the session reports the last slot it used
 * and how many of the new items it has placed.
 */
module AddItemRanking {
  import opened Wrappers
  import opened Models
  import opened BinaryInsertion

  /** The view model's published fields, with its private search state in `search`. */
  datatype Session = Session(
    currentMatchup: Option<Matchup>,
    isComplete: bool,
    insertedPosition: Option<nat>,
    processedCount: nat,
    totalCount: nat,
    search: Search)

  /** The slots the caller reads the new order from. */
  function GetUpdatedList(s: Session): seq<RankleItem> {
    s.search.workingOrder
  }

  /**
   * The state between two calls of the public interface: either a matchup is
   * shown, or the session is complete. Placed plus unplaced items always
   * account for the whole batch, and a reported slot exists.
   */
  predicate Settled(s: Session) {
    var q := s.search;
    && Presenting(q, s.currentMatchup, s.isComplete)
    && s.processedCount + Pending(q) == s.totalCount
    && (s.insertedPosition.Some? ==> s.insertedPosition.value < |q.workingOrder|)
    && if q.candidate.Some? then s.insertedPosition.None?
       else (s.insertedPosition.Some? <==> s.totalCount > 0)
  }

  /** The state `nextInsertion` is entered in: nothing in flight and no matchup shown. */
  predicate Between(s: Session) {
    var q := s.search;
    && q.candidate.None? && s.currentMatchup.None? && !s.isComplete
    && Distinct(Everything(q))
    && s.processedCount + Pending(q) == s.totalCount
    && (s.insertedPosition.Some? <==> s.processedCount > 0)
    && (s.insertedPosition.Some? ==> s.insertedPosition.value < |q.workingOrder|)
  }

  /** The state `promptNextComparison` is entered in with a candidate to place. */
  predicate Staged(s: Session) {
    var q := s.search;
    && RangeOk(q) && q.candidate.Some? && s.currentMatchup.None? && !s.isComplete
    && s.insertedPosition.None?
    && Distinct(Everything(q))
    && s.processedCount + Pending(q) == s.totalCount
  }

  /** Marks the session complete; the search, the shown matchup, the reported slot and the counts stay as they were. */
  function CompleteSession(s: Session): (r: Session)
    ensures r.isComplete && r.search == s.search && r.currentMatchup == s.currentMatchup
    ensures r.insertedPosition == s.insertedPosition
    ensures r.processedCount == s.processedCount && r.totalCount == s.totalCount
  {
    s.(isComplete := true)
  }

  /** Takes the next queued item as the candidate, or completes the session when none is left. */
  function NextInsertion(s: Session): (r: Session)
    requires RangeOk(s.search)
    ensures Between(s) ==> Settled(r)
    ensures r.totalCount == s.totalCount
    ensures s.search.workingOrder != [] ==>
              && r.search == Settle(s.search)
              && r.processedCount == s.processedCount
              && r.insertedPosition == (if s.search.queue == [] then s.insertedPosition else None)
    decreases |s.search.queue|, 0
  {
    if s.search.queue == [] then CompleteSession(s)
    else PromptNextComparison(s.(search := Begin(s.search), insertedPosition := None))
  }

  /**
   * Shows the candidate against the middle of its range, or, once the range
   * is empty, inserts it there, reports that slot and moves on.
   */
  function PromptNextComparison(s: Session): (r: Session)
    requires RangeOk(s.search)
    ensures Staged(s) ==> Settled(r)
    ensures r.totalCount == s.totalCount
    ensures s.search.candidate.None? ==> r == s
    ensures s.search.candidate.Some? && s.search.lo < s.search.hi ==>
              r == s.(currentMatchup := Some(Probe(s.search)))
    ensures s.search.candidate.Some? && s.search.lo == s.search.hi ==>
              && r.search == Settle(Place(s.search))
              && r.processedCount == s.processedCount + 1
              && r.insertedPosition == (if s.search.queue == [] then Some(s.search.lo) else None)
    decreases |s.search.queue|, 1
  {
    var q := s.search;
    if q.candidate.None? then s
    else if q.lo == q.hi then
      PlaceDistinct(q);
      NextInsertion(s.(search := Place(q), insertedPosition := Some(q.lo),
                       processedCount := s.processedCount + 1))
    else
      s.(currentMatchup := Some(Probe(q)))
  }

  /**
   * Answers the shown matchup. The probed item is found again by identity,
   * which is its probed slot because all items are distinct; the range is
   * narrowed and the next matchup shown. Without a matchup nothing changes.
   * The step taken is exactly the reference step `Answer`, so the ordering
   * properties of binary insertion hold for this session.
   */
  function Choose(s: Session, choice: MatchupChoice): (r: Session)
    requires Settled(s)
    ensures Settled(r)
    ensures r.totalCount == s.totalCount
    ensures s.currentMatchup.None? ==> r == s
    ensures s.currentMatchup.Some? ==> r.search == Answer(s.search, choice)
    ensures s.currentMatchup.Some? ==>
              if Pending(r.search) < Pending(s.search) then
                && r.processedCount == s.processedCount + 1
                && r.insertedPosition == (if r.isComplete then Some(Landing(s.search, choice)) else None)
              else
                r.processedCount == s.processedCount && r.insertedPosition.None?
  {
    var q := s.search;
    if s.currentMatchup.None? || q.candidate.None? then s
    else
      var current := s.currentMatchup.value;
      PlacedDistinct(q);
      FirstIndexOfDistinct(q.workingOrder, Mid(q.lo, q.hi));
      var midIndex := FirstIndex(q.workingOrder, current.right);
      var (lo', hi') := Narrow(q.lo, q.hi, midIndex, choice);
      PromptNextComparison(s.(search := q.(lo := lo', hi := hi'), currentMatchup := None))
  }

  /** Starts a session that places `newItems`, in order, into `existingItems`. */
  function Init(existingItems: seq<RankleItem>, newItems: seq<RankleItem>): (r: Session)
    ensures Distinct(existingItems + newItems) ==> Settled(r)
    ensures r.search == Start(existingItems, newItems)
    ensures r.totalCount == |newItems|
    ensures r.processedCount == (if existingItems == [] && newItems != [] then 1 else 0)
    ensures r.insertedPosition == (if existingItems == [] && |newItems| == 1 then Some(0) else None)
    ensures newItems == [] ==> r.isComplete && r.currentMatchup.None? && GetUpdatedList(r) == existingItems
  {
    var s := Session(None, false, None, 0, |newItems|, Search(existingItems, newItems, 0, 0, None));
    assert Everything(s.search) == existingItems + newItems;
    NextInsertion(s)
  }

  /** Answers every matchup with `pick` until the session completes. */
  function Run(s: Session, pick: Matchup -> MatchupChoice): (r: Session)
    requires Settled(s)
    ensures Settled(r) && r.isComplete
    ensures r.totalCount == s.totalCount
    ensures r.search == RunSearch(s.search, pick)
    decreases Pending(s.search), s.search.hi - s.search.lo
  {
    match s.currentMatchup
    case None => s
    case Some(m) => Run(Choose(s, pick(m)), pick)
  }

  /** Answers `choices` one after another; answers given while no matchup is shown change nothing. */
  function ChooseAll(s: Session, choices: seq<MatchupChoice>): (r: Session)
    requires Settled(s)
    ensures Settled(r)
    ensures r.search == AnswerAll(s.search, choices)
    decreases |choices|
  {
    if choices == [] then s
    else
      AnswerAllIdle(Choose(s, choices[0]).search, choices[1..]);
      ChooseAll(Choose(s, choices[0]), choices[1..])
  }

}

/** What a whole add-item session guarantees, whatever the answers. */
module AddItemRankingProperties {
  import opened Wrappers
  import opened Models
  import opened BinaryInsertion
  import opened AddItemRanking

  /** A shown matchup puts the candidate against a different, already placed item inside its range. */
  lemma MatchupShown(s: Session)
    requires Settled(s) && s.currentMatchup.Some?
    ensures s.search.candidate == Some(s.currentMatchup.value.left)
    ensures s.currentMatchup.value.left != s.currentMatchup.value.right
    ensures s.currentMatchup.value.right in s.search.workingOrder[s.search.lo..s.search.hi]
  {
    var q := s.search;
    PlacedDistinct(q);
    assert q.workingOrder[Mid(q.lo, q.hi)] == q.workingOrder[q.lo..q.hi][Mid(q.lo, q.hi) - q.lo];
  }

  /**
   * The item being placed is in the updated list after at most
   * Bits(hi - lo) further answers, whatever they are; a fresh candidate among
   * n placed items needs at most ceil(log2(n + 1)) of them.
   */
  lemma CandidatePlacedWithinBits(s: Session, choices: seq<MatchupChoice>)
    requires Settled(s) && s.search.candidate.Some?
    requires |choices| >= Bits(s.search.hi - s.search.lo)
    ensures s.search.candidate.value in ChooseAll(s, choices).search.workingOrder
  {
    PlacedWithinBits(s.search, choices);
  }

  /** The reported slot holds the new item placed last. */
  ghost predicate ReportsLast(s: Session, newItems: seq<RankleItem>) {
    s.insertedPosition.Some? ==>
      && Pending(s.search) < |newItems|
      && s.insertedPosition.value < |s.search.workingOrder|
      && s.search.workingOrder[s.insertedPosition.value] == newItems[|newItems| - Pending(s.search) - 1]
  }

  lemma ChooseReportsLast(s: Session, choice: MatchupChoice, newItems: seq<RankleItem>)
    requires Settled(s) && Queued(s.search, newItems) && ReportsLast(s, newItems)
    ensures Queued(Choose(s, choice).search, newItems)
    ensures ReportsLast(Choose(s, choice), newItems)
  {
    var q := s.search;
    if s.currentMatchup.Some? {
      AnswerQueued(q, choice, newItems);
      var r := Choose(s, choice);
      if r.insertedPosition.Some? {
        assert Pending(r.search) + 1 == Pending(q);
        assert r.search.workingOrder[Landing(q, choice)] == q.candidate.value;
      }
    }
  }

  lemma {:induction false} RunReportsLast(s: Session, pick: Matchup -> MatchupChoice, newItems: seq<RankleItem>)
    requires Settled(s) && Queued(s.search, newItems) && ReportsLast(s, newItems)
    ensures ReportsLast(Run(s, pick), newItems)
    decreases Pending(s.search), s.search.hi - s.search.lo
  {
    if s.currentMatchup.Some? {
      var choice := pick(s.currentMatchup.value);
      ChooseReportsLast(s, choice, newItems);
      RunReportsLast(Choose(s, choice), pick, newItems);
    }
  }

  /**
   * Whatever the answers, a completed session has placed and counted every
   * new item, and the updated list is a permutation of the existing and new
   * items in which the existing ones keep their order.
   */
  lemma SessionPermutes(existing: seq<RankleItem>, newItems: seq<RankleItem>, pick: Matchup -> MatchupChoice)
    requires Distinct(existing + newItems)
    ensures var r := Run(Init(existing, newItems), pick);
            && r.isComplete && r.currentMatchup.None?
            && r.processedCount == r.totalCount == |newItems|
            && multiset(GetUpdatedList(r)) == multiset(existing + newItems)
            && Without(GetUpdatedList(r), newItems) == existing
  {
    var r := Run(Init(existing, newItems), pick);
    CompletedCounts(r);
    DistinctSplit(existing, newItems);
    InsertionPermutes(existing, newItems, pick);
    assert GetUpdatedList(r) == RunSearch(Start(existing, newItems), pick).workingOrder;
  }

  /** A completed session shows no matchup and has processed its whole batch. */
  lemma CompletedCounts(r: Session)
    requires Settled(r) && r.isComplete
    ensures r.currentMatchup.None? && r.processedCount == r.totalCount
  {
  }

  lemma InitReportsLast(existing: seq<RankleItem>, newItems: seq<RankleItem>)
    ensures Queued(Init(existing, newItems).search, newItems)
    ensures ReportsLast(Init(existing, newItems), newItems)
  {
    StartQueued(existing, newItems);
    if existing == [] && |newItems| == 1 {
      assert Init(existing, newItems).search.workingOrder == [newItems[0]];
    }
  }

  lemma CompletedReportsLast(r: Session, newItems: seq<RankleItem>)
    requires Settled(r) && r.isComplete && ReportsLast(r, newItems) && r.totalCount == |newItems|
    ensures r.insertedPosition.Some? <==> newItems != []
    ensures newItems != [] ==> GetUpdatedList(r)[r.insertedPosition.value] == newItems[|newItems| - 1]
  {
  }

  /** A completed session reports the slot of the last new item, and no slot when the batch was empty. */
  lemma SessionReportsLast(existing: seq<RankleItem>, newItems: seq<RankleItem>, pick: Matchup -> MatchupChoice)
    requires Distinct(existing + newItems)
    ensures var r := Run(Init(existing, newItems), pick);
            && (r.insertedPosition.Some? <==> newItems != [])
            && (newItems != [] ==> GetUpdatedList(r)[r.insertedPosition.value] == newItems[|newItems| - 1])
  {
    var s := Init(existing, newItems);
    InitReportsLast(existing, newItems);
    RunReportsLast(s, pick, newItems);
    CompletedReportsLast(Run(s, pick), newItems);
  }

  /** Answering every matchup consistently with a score inserts the new items into a list already sorted by it so that the result is sorted. */
  lemma SessionSorts(existing: seq<RankleItem>, newItems: seq<RankleItem>, key: RankleItem -> int)
    requires Distinct(existing + newItems) && SortedDesc(existing, key)
    ensures SortedDesc(GetUpdatedList(Run(Init(existing, newItems), Prefer(key))), key)
  {
    InsertionSorts(existing, newItems, key);
  }

  /** Always preferring the new item puts the batch, last item first, ahead of the existing items. */
  lemma SessionAlwaysLeft(existing: seq<RankleItem>, newItems: seq<RankleItem>)
    requires Distinct(existing + newItems)
    ensures GetUpdatedList(Run(Init(existing, newItems), AlwaysLeft())) == Reverse(newItems) + existing
  {
    AlwaysLeftPrepends(existing, newItems);
  }

  /**
   * Adding k new items to n > 0 ranked ones starts on a fresh candidate over
   * all n slots with k - 1 queued, in a run that ends with n + k items.
   */
  lemma AddItemStartsFresh(existing: seq<RankleItem>, newItems: seq<RankleItem>)
    requires existing != [] && newItems != []
    ensures var q := Init(existing, newItems).search;
            && FreshCandidate(q, |newItems|, |existing| + |newItems| - 1)
            && q.hi - q.lo == |existing|
  {
    StartFresh(existing, newItems);
  }

  /**
   * Adding k new items to n > 0 ranked ones shows at most
   * Bits(n) + (k - 1) * Bits(n + k - 1) matchups, and so at most
   * k * ceil(log2(n + k)), whatever the answers.
   */
  lemma AddItemMatchups(existing: seq<RankleItem>, newItems: seq<RankleItem>, pick: Matchup -> MatchupChoice)
    requires existing != [] && newItems != []
    ensures var q := Init(existing, newItems).search;
            && Matchups(q, pick) <= Bits(|existing|) + (|newItems| - 1) * Bits(|existing| + |newItems| - 1)
            && Matchups(q, pick) <= |newItems| * Bits(|existing| + |newItems| - 1)
  {
    StartMatchups(existing, newItems, pick);
  }
}
