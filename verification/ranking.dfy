/**
 * The session that ranks a whole list from scratch
 * (Rankle/Sources/ViewModels/RankingViewModel.swift): the first item seeds
 * the order, every other item is placed by binary insertion, and on
 * completion the list takes the new order.
 */
module Ranking {
  import opened Wrappers
  import opened Models
  import opened BinaryInsertion

  /** The view model's published fields, with its private search state in `search`. */
  datatype Session = Session(
    list: RankleList,
    currentMatchup: Option<Matchup>,
    isComplete: bool,
    search: Search)

  /** Swift's `Array(xs.dropFirst())`, which is empty for an empty array. */
  function DropFirst<T>(xs: seq<T>): (r: seq<T>)
    ensures xs != [] ==> xs == [xs[0]] + r
    ensures xs == [] ==> r == []
  {
    if xs == [] then [] else xs[1..]
  }

  /**
   * The state between two calls of the public interface: a matchup is shown,
   * or the session is complete and the list holds the working order.
   */
  predicate Settled(s: Session) {
    && Presenting(s.search, s.currentMatchup, s.isComplete)
    && (s.isComplete ==> s.list.items == s.search.workingOrder)
  }

  /** The state `nextInsertion` is entered in: nothing in flight and no matchup shown. */
  predicate Between(s: Session) {
    && RangeOk(s.search) && s.search.candidate.None? && s.currentMatchup.None? && !s.isComplete
    && Distinct(Everything(s.search))
  }

  /** The state `promptNextComparison` is entered in with a candidate to place. */
  predicate Staged(s: Session) {
    && RangeOk(s.search) && s.search.candidate.Some? && s.currentMatchup.None? && !s.isComplete
    && Distinct(Everything(s.search))
  }

  /** The state the initialiser calls `startPairwiseSort` in: the list's items, untouched. */
  predicate Fresh(s: Session) {
    && s.search == Search(s.list.items, [], 0, 0, None)
    && s.currentMatchup.None? && !s.isComplete
  }

  /** Marks the session complete and gives the list the working order; nothing else about the list changes. */
  function CompleteSession(s: Session): (r: Session)
    ensures r.isComplete && r.search == s.search && r.currentMatchup == s.currentMatchup
    ensures r.list.items == s.search.workingOrder
    ensures r.list.id == s.list.id && r.list.name == s.list.name
  {
    s.(isComplete := true, list := s.list.(items := s.search.workingOrder))
  }

  /** Takes the next queued item as the candidate, or completes the session when none is left. */
  function NextInsertion(s: Session): (r: Session)
    ensures Between(s) ==> Settled(r)
    ensures s.search.workingOrder != [] ==> r.search == Settle(s.search)
    ensures s.search.workingOrder != [] && s.search.queue != [] ==>
              r.currentMatchup == Some(Matchup(s.search.queue[0], s.search.workingOrder[|s.search.workingOrder| / 2]))
    ensures r.list == s.list.(items := r.list.items)
    ensures !r.isComplete ==> r.list == s.list
    decreases |s.search.queue|, 0
  {
    if s.search.queue == [] then CompleteSession(s)
    else PromptNextComparison(s.(search := Begin(s.search)))
  }

  /**
   * Shows the candidate against the middle of its range, or, once the range
   * is empty, inserts it there and moves on.
   */
  function PromptNextComparison(s: Session): (r: Session)
    requires RangeOk(s.search)
    ensures Staged(s) ==> Settled(r)
    ensures s.search.candidate.None? ==> r == s
    ensures s.search.candidate.Some? && s.search.lo < s.search.hi ==>
              r == s.(currentMatchup := Some(Probe(s.search)))
    ensures s.search.candidate.Some? && s.search.lo == s.search.hi ==>
              r.search == Settle(Place(s.search))
    ensures r.list == s.list.(items := r.list.items)
    ensures !r.isComplete ==> r.list == s.list
    decreases |s.search.queue|, 1
  {
    var q := s.search;
    if q.candidate.None? then s
    else if q.lo == q.hi then
      PlaceDistinct(q);
      NextInsertion(s.(search := Place(q)))
    else
      s.(currentMatchup := Some(Probe(q)))
  }

  /**
   * Seeds the order with the first item and queues the list's other items.
   * With at most one item there is nothing to compare and the session is
   * complete at once.
   */
  function StartPairwiseSort(s: Session): (r: Session)
    ensures |s.search.workingOrder| <= 1 ==> r == s.(isComplete := true)
    ensures |s.search.workingOrder| > 1 && |s.list.items| > 1 ==>
              && r.search == Start([s.search.workingOrder[0]], s.list.items[1..])
              && r.currentMatchup == Some(Matchup(s.list.items[1], s.search.workingOrder[0]))
    ensures Fresh(s) && |s.list.items| > 1 && Distinct(s.list.items) ==> Settled(r) && r.list == s.list
  {
    var w := s.search.workingOrder;
    if |w| <= 1 then s.(isComplete := true)
    else
      var seeded := s.(search := s.search.(workingOrder := [w[0]], queue := DropFirst(s.list.items)));
      assert Fresh(s) ==> Everything(seeded.search) == s.list.items;
      NextInsertion(seeded)
  }

  /** Starts a session on `list`; a list of at most one item is already complete. */
  function Init(list: RankleList): (r: Session)
    ensures |list.items| <= 1 ==> r.isComplete && r.currentMatchup.None? && r.list == list
    ensures |list.items| > 1 ==>
              && !r.isComplete && r.list == list
              && r.search == Start([list.items[0]], list.items[1..])
              && r.currentMatchup == Some(Matchup(list.items[1], list.items[0]))
    ensures Distinct(list.items) ==> Settled(r)
  {
    var s := Session(list, None, |list.items| <= 1, Search(list.items, [], 0, 0, None));
    if s.isComplete then s else StartPairwiseSort(s)
  }

  /**
   * Answers the shown matchup. The probed item is found again by identity,
   * which is its probed slot because all items are distinct; the range is
   * narrowed and the next matchup shown. Without a matchup nothing changes.
   * The step taken is exactly the reference step `Answer`.
   */
  function Choose(s: Session, choice: MatchupChoice): (r: Session)
    requires Settled(s)
    ensures Settled(r)
    ensures s.currentMatchup.None? ==> r == s
    ensures s.currentMatchup.Some? ==> r.search == Answer(s.search, choice)
    ensures r.list == s.list.(items := r.list.items)
    ensures !r.isComplete ==> r.list == s.list
  {
    var q := s.search;
    if s.currentMatchup.None? || q.candidate.None? then s
    else
      var current := s.currentMatchup.value;
      PlacedDistinct(q);
      FirstIndexOfDistinct(q.workingOrder, Mid(q.lo, q.hi));
      var midIndex := FirstIndex(q.workingOrder, current.right);
      var (lo', hi') := Narrow(q.lo, q.hi, midIndex, choice);
      PromptNextComparison(s.(search := q.(lo := lo', hi := hi'), currentMatchup := None))
  }

  /** Answers every matchup with `pick` until the session completes. */
  function Run(s: Session, pick: Matchup -> MatchupChoice): (r: Session)
    requires Settled(s)
    ensures Settled(r) && r.isComplete
    ensures r.search == RunSearch(s.search, pick)
    ensures r.list == s.list.(items := r.list.items)
    decreases Pending(s.search), s.search.hi - s.search.lo
  {
    match s.currentMatchup
    case None => s
    case Some(m) => Run(Choose(s, pick(m)), pick)
  }
}

/** What a whole ranking session guarantees, whatever the answers. */
module RankingProperties {
  import opened Wrappers
  import opened Models
  import opened BinaryInsertion
  import opened Ranking

  /** A completed session holds its working order, and the list keeps its identity and name. */
  lemma Completed(s: Session, r: Session, pick: Matchup -> MatchupChoice)
    requires Settled(s) && r == Run(s, pick)
    ensures r.isComplete && r.currentMatchup.None?
    ensures r.list.items == RunSearch(s.search, pick).workingOrder
    ensures r.list.id == s.list.id && r.list.name == s.list.name
  {
  }

  /**
   * Whatever the answers, ranking a list of distinct items completes with a
   * permutation of its items, under the same identity and name.
   */
  lemma RankingPermutes(list: RankleList, pick: Matchup -> MatchupChoice)
    requires Distinct(list.items)
    ensures var r := Run(Init(list), pick);
            && r.isComplete && r.currentMatchup.None?
            && r.list.id == list.id && r.list.name == list.name
            && multiset(r.list.items) == multiset(list.items)
  {
    var s := Init(list);
    Completed(s, Run(s, pick), pick);
    if |list.items| > 1 {
      InsertionPermutes([list.items[0]], list.items[1..], pick);
      assert [list.items[0]] + list.items[1..] == list.items;
    }
  }

  /** Answering every matchup consistently with a score ranks the list in non-increasing score. */
  lemma RankingSorts(list: RankleList, key: RankleItem -> int)
    requires Distinct(list.items)
    ensures SortedDesc(Run(Init(list), Prefer(key)).list.items, key)
  {
    var s := Init(list);
    Completed(s, Run(s, Prefer(key)), Prefer(key));
    if |list.items| > 1 {
      InsertionSorts([list.items[0]], list.items[1..], key);
    }
  }

  /** Always preferring the candidate reverses the list. */
  lemma RankingAlwaysLeft(list: RankleList)
    requires Distinct(list.items)
    ensures Run(Init(list), AlwaysLeft()).list.items == Reverse(list.items)
  {
    var s := Init(list);
    Completed(s, Run(s, AlwaysLeft()), AlwaysLeft());
    if |list.items| > 1 {
      AlwaysLeftPrepends([list.items[0]], list.items[1..]);
    } else if |list.items| == 1 {
      assert Reverse(list.items) == Reverse(list.items[1..]) + [list.items[0]];
    }
  }

  /**
   * Ranking n > 1 items starts on a fresh candidate over the single seed
   * slot with n - 2 queued, in a run that ends with n items.
   */
  lemma RankingStartsFresh(list: RankleList)
    requires |list.items| > 1
    ensures var q := Init(list).search;
            && FreshCandidate(q, |list.items| - 1, |list.items| - 1)
            && q.hi - q.lo == 1
  {
  }

  /**
   * Ranking n > 1 items shows at most 1 + (n - 2) * Bits(n - 1) matchups,
   * that is 1 + (n - 2) * ceil(log2 n), whatever the answers.
   */
  lemma RankingMatchups(list: RankleList, pick: Matchup -> MatchupChoice)
    requires |list.items| > 1
    ensures Matchups(Init(list).search, pick) <= 1 + (|list.items| - 2) * Bits(|list.items| - 1)
  {
    var n, q := |list.items|, Init(list).search;
    RankingStartsFresh(list);
    FreshMatchups(q, n - 1, n - 1, pick);
    assert Bits(q.hi - q.lo) == 1 by {
      assert Bits(0) == 0;
    }
  }

  /** A ranking of four items shows at most five matchups, whatever the answers. */
  lemma FourItemsMatchups(q: Search, pick: Matchup -> MatchupChoice)
    requires FreshCandidate(q, 3, 3) && q.hi - q.lo == 1
    ensures Matchups(q, pick) <= 5
  {
    BudgetBound(q, 3, 3);
    MatchupsWithinBudget(q, pick);
    assert Bits(1) == 1 by {
      assert Bits(0) == 0;
    }
    assert Bits(3) == 2 by {
      assert Bits(3) == 1 + Bits(1);
    }
    assert Times(2, 2) == 4 by {
      assert Times(0, 2) == 0;
      assert Times(1, 2) == 2;
    }
  }

  /**
   * Four distinct items ranked by always preferring the candidate: the
   * session starts within the five-matchup bound and completes with the four
   * items in reverse order.
   */
  lemma FourItemsAlwaysLeft(d: RankleItem, a: RankleItem, c: RankleItem, b: RankleItem)
    requires Distinct([d, a, c, b])
    ensures var list := RankleList(0, "Test", [d, a, c, b]);
            && FreshCandidate(Init(list).search, 3, 3) && Init(list).search.hi - Init(list).search.lo == 1
            && Run(Init(list), AlwaysLeft()).isComplete
            && Run(Init(list), AlwaysLeft()).list.items == [b, c, a, d]
  {
    var list := RankleList(0, "Test", [d, a, c, b]);
    RankingStartsFresh(list);
    RankingAlwaysLeft(list);
    ReverseFour(d, a, c, b);
  }

  lemma ReverseFour(d: RankleItem, a: RankleItem, c: RankleItem, b: RankleItem)
    ensures Reverse([d, a, c, b]) == [b, c, a, d]
  {
    assert Reverse([b]) == [b] by {
      assert Reverse([b]) == Reverse([b][1..]) + [b];
    }
    assert Reverse([c, b]) == [b, c] by {
      assert [c, b][1..] == [b];
    }
    assert Reverse([a, c, b]) == [b, c, a] by {
      assert [a, c, b][1..] == [c, b];
    }
    assert [d, a, c, b][1..] == [a, c, b];
  }
}
