/**
 * The binary-insertion search that both ranking view models run
 * (Rankle/Sources/ViewModels/RankingViewModel.swift and
 * Rankle/Sources/ViewModels/AddItemRankingViewModel.swift share it line for line).
 *
 * A `Search` holds the ordered items placed so far, the queue of items still to
 * place, the candidate being placed and the half-open range [lo, hi) of slots it
 * may still take. `Answer` is the reference step for one answered matchup and
 * `RunSearch` the reference run; the view-model modules prove that their
 * state machines take exactly these steps, and the ordering properties are
 * proved here once.
 */
module BinaryInsertion {
  import opened Wrappers
  import opened Models

  datatype Search = Search(
    workingOrder: seq<RankleItem>,
    queue: seq<RankleItem>,
    lo: nat,
    hi: nat,
    candidate: Option<RankleItem>)

  /** The candidate, as a sequence of zero or one items. */
  function InFlight(q: Search): seq<RankleItem> {
    if q.candidate.Some? then [q.candidate.value] else []
  }

  /** Items not yet placed: the candidate and the queue. */
  function Pending(q: Search): nat {
    |InFlight(q)| + |q.queue|
  }

  /** Every item of the session: placed, in flight, queued. */
  function Everything(q: Search): seq<RankleItem> {
    q.workingOrder + InFlight(q) + q.queue
  }

  predicate RangeOk(q: Search) {
    q.lo <= q.hi <= |q.workingOrder|
  }

  /** The shape between two answers: a candidate always has slots left to probe, and no candidate means nothing is queued. */
  predicate Poised(q: Search) {
    && RangeOk(q)
    && (if q.candidate.Some? then q.lo < q.hi else q.queue == [])
  }

  /**
   * What a view model shows between two calls: a matchup of the candidate
   * against the middle of its range while one is in flight, otherwise the
   * completed state with no matchup. All items are distinct, as the
   * force-unwrapped `firstIndex(of:)` in `choose` relies on.
   */
  predicate Presenting(q: Search, currentMatchup: Option<Matchup>, isComplete: bool) {
    && Poised(q)
    && Distinct(Everything(q))
    && if q.candidate.Some? then !isComplete && currentMatchup == Some(Probe(q))
       else isComplete && currentMatchup.None?
  }

  /** The placed items are distinct, and the candidate is none of them. */
  lemma PlacedDistinct(q: Search)
    requires Distinct(Everything(q))
    ensures Distinct(q.workingOrder)
    ensures q.candidate.Some? ==> q.candidate.value !in q.workingOrder
  {
    DistinctSplit(q.workingOrder + InFlight(q), q.queue);
    DistinctSplit(q.workingOrder, InFlight(q));
    if q.candidate.Some? {
      assert q.candidate.value in InFlight(q);
    }
  }

  // ---------------------------------------------------------------------------
  // Sequence helpers

  /** Swift's `Array.insert(_:at:)`. */
  function InsertAt<T>(xs: seq<T>, i: nat, x: T): (r: seq<T>)
    requires i <= |xs|
    ensures |r| == |xs| + 1 && r[i] == x
  {
    xs[..i] + [x] + xs[i..]
  }

  /** Inserting shifts the items at and after the slot by one and leaves the ones before it alone. */
  lemma InsertAtIndices<T>(xs: seq<T>, i: nat, x: T)
    requires i <= |xs|
    ensures forall k :: 0 <= k < i ==> InsertAt(xs, i, x)[k] == xs[k]
    ensures forall k :: i <= k < |xs| ==> InsertAt(xs, i, x)[k + 1] == xs[k]
  {
  }

  /** Inserting adds exactly one occurrence of the new item. */
  lemma InsertAtMultiset<T>(xs: seq<T>, i: nat, x: T)
    requires i <= |xs|
    ensures multiset(InsertAt(xs, i, x)) == multiset(xs) + multiset{x}
  {
    assert xs == xs[..i] + xs[i..];
  }

  /** Moving an item from just after `w` into `w` keeps a sequence free of repetitions. */
  lemma DistinctPlace(w: seq<RankleItem>, c: RankleItem, rest: seq<RankleItem>, i: nat)
    requires i <= |w| && Distinct(w + [c] + rest)
    ensures Distinct(InsertAt(w, i, c) + rest)
  {
    DistinctSplit(w + [c], rest);
    DistinctSplit(w, [c]);
    assert w == w[..i] + w[i..];
    DistinctSplit(w[..i], w[i..]);
    DistinctJoin([c], w[i..]);
    DistinctJoin(w[..i], [c] + w[i..]);
    assert InsertAt(w, i, c) == w[..i] + ([c] + w[i..]);
    InsertAtMultiset(w, i, c);
    forall x | x in InsertAt(w, i, c)
      ensures x !in rest
    {
      assert x in multiset(InsertAt(w, i, c));
      assert x in w + [c];
    }
    DistinctJoin(InsertAt(w, i, c), rest);
  }

  /** `xs` with every element of `ys` filtered out. */
  function Without(xs: seq<RankleItem>, ys: seq<RankleItem>): (r: seq<RankleItem>)
    ensures forall x :: x in r <==> x in xs && x !in ys
  {
    if xs == [] then [] else (if xs[0] in ys then [] else [xs[0]]) + Without(xs[1..], ys)
  }

  lemma {:induction false} WithoutInsert(xs: seq<RankleItem>, i: nat, x: RankleItem, ys: seq<RankleItem>)
    requires i <= |xs| && x in ys
    ensures Without(InsertAt(xs, i, x), ys) == Without(xs, ys)
  {
    if i == 0 {
      assert InsertAt(xs, 0, x) == [x] + xs;
      assert ([x] + xs)[1..] == xs;
    } else {
      assert InsertAt(xs, i, x) == [xs[0]] + InsertAt(xs[1..], i - 1, x);
      WithoutInsert(xs[1..], i - 1, x, ys);
    }
  }

  lemma {:induction false} WithoutNothingShared(xs: seq<RankleItem>, ys: seq<RankleItem>)
    requires forall x :: x in xs ==> x !in ys
    ensures Without(xs, ys) == xs
  {
    if xs != [] {
      WithoutNothingShared(xs[1..], ys);
      assert xs == [xs[0]] + xs[1..];
    }
  }

  // ---------------------------------------------------------------------------
  // One step of the search

  /** The probed slot `(lo + hi) / 2`; the operands are array indices, so Swift's truncating division on non-negative values is Dafny's. */
  function Mid(lo: nat, hi: nat): (mid: nat)
    requires lo < hi
    ensures lo <= mid < hi
    ensures mid - lo == (hi - lo) / 2
  {
    (lo + hi) / 2
  }

  /**
   * The range left after an answer about the item at `probe`: preferring the
   * candidate keeps the slots above the probe, preferring the probed item keeps
   * the slots below it. The probe itself is never kept, and probing the middle
   * at least halves the range.
   */
  function Narrow(lo: nat, hi: nat, probe: nat, choice: MatchupChoice): (r: (nat, nat))
    requires lo <= probe < hi
    ensures lo <= r.0 <= r.1 <= hi
    ensures choice == Left ==> r == (lo, probe)
    ensures choice == Right ==> r == (probe + 1, hi)
    ensures probe == Mid(lo, hi) ==> r.1 - r.0 <= (hi - lo) / 2
  {
    match choice
    case Left => (lo, probe)
    case Right => (probe + 1, hi)
  }

  /** Takes the head of the queue as the new candidate, with every slot open. */
  function Begin(q: Search): (r: Search)
    requires q.queue != []
    ensures q.candidate.None? ==> Everything(r) == Everything(q) && Pending(r) == Pending(q)
  {
    assert q.queue == [q.queue[0]] + q.queue[1..];
    q.(candidate := Some(q.queue[0]), queue := q.queue[1..], lo := 0, hi := |q.workingOrder|)
  }

  /** Inserts the candidate at `lo`: one item leaves the pending ones and joins the working order there. */
  function Place(q: Search): (r: Search)
    requires q.candidate.Some? && RangeOk(q)
    ensures r.candidate.None? && r.queue == q.queue && Pending(r) + 1 == Pending(q)
    ensures |r.workingOrder| == |q.workingOrder| + 1 && r.workingOrder[q.lo] == q.candidate.value
  {
    q.(workingOrder := InsertAt(q.workingOrder, q.lo, q.candidate.value), candidate := None)
  }

  /** Placing the candidate keeps all items distinct. */
  lemma PlaceDistinct(q: Search)
    requires q.candidate.Some? && RangeOk(q)
    ensures Distinct(Everything(q)) ==> Distinct(Everything(Place(q)))
  {
    if Distinct(Everything(q)) {
      DistinctPlace(q.workingOrder, q.candidate.value, q.queue, q.lo);
      assert Everything(Place(q)) == Place(q).workingOrder + q.queue;
    }
  }

  /**
   * Starts the next candidate if any is queued, with every slot open; after a
   * placement nothing is lost or gained and a candidate is presented exactly
   * when one was queued.
   */
  function Settle(q: Search): (r: Search)
    ensures r.workingOrder == q.workingOrder
    ensures q.candidate.None? ==> Everything(r) == Everything(q) && Pending(r) == Pending(q)
    ensures q.candidate.None? ==> (r.candidate.Some? <==> q.queue != [])
    ensures q.queue != [] ==> r.lo == 0 && r.hi == |r.workingOrder|
  {
    if q.queue == [] then q else Begin(q)
  }

  /** The matchup shown for a candidate: the candidate against the item in the middle of its range. */
  function Probe(q: Search): (r: Matchup)
    requires q.candidate.Some? && q.lo < q.hi <= |q.workingOrder|
    ensures r.left == q.candidate.value && r.right in q.workingOrder[q.lo..q.hi]
  {
    Matchup(q.candidate.value, q.workingOrder[Mid(q.lo, q.hi)])
  }

  /** The slot the candidate lands on when `choice` empties its range. */
  function Landing(q: Search, choice: MatchupChoice): (r: nat)
    requires q.lo < q.hi
    ensures q.lo <= r <= q.hi
    ensures choice == Left ==> r == q.lo
    ensures choice == Right ==> r == Mid(q.lo, q.hi) + 1
  {
    Narrow(q.lo, q.hi, Mid(q.lo, q.hi), choice).0
  }

  /**
   * Reference step: narrow the range by the answer; once it is empty, insert
   * the candidate there and start on the next queued item.
   */
  function Answer(q: Search, choice: MatchupChoice): (r: Search)
    requires q.candidate.Some? && q.lo < q.hi <= |q.workingOrder|
    ensures Poised(r)
    ensures Pending(r) == Pending(q) ==>
              && r == q.(lo := r.lo, hi := r.hi) && q.lo <= r.lo < r.hi <= q.hi
              && r.hi - r.lo <= (q.hi - q.lo) / 2
    ensures Pending(r) != Pending(q) ==>
              && Pending(r) == Pending(q) - 1
              && r.workingOrder == InsertAt(q.workingOrder, Landing(q, choice), q.candidate.value)
  {
    var (lo', hi') := Narrow(q.lo, q.hi, Mid(q.lo, q.hi), choice);
    var narrowed := q.(lo := lo', hi := hi');
    if lo' < hi' then narrowed
    else
      Settle(Place(narrowed))
  }

  /** Distinctness of all items is kept by every answer. */
  lemma AnswerDistinct(q: Search, choice: MatchupChoice)
    requires q.candidate.Some? && q.lo < q.hi <= |q.workingOrder|
    requires Distinct(Everything(q))
    ensures Distinct(Everything(Answer(q, choice)))
  {
    var (lo', hi') := Narrow(q.lo, q.hi, Mid(q.lo, q.hi), choice);
    var narrowed := q.(lo := lo', hi := hi');
    assert Everything(narrowed) == Everything(q);
    if lo' == hi' {
      PlaceDistinct(narrowed);
      assert Answer(q, choice) == Settle(Place(narrowed));
    } else {
      assert Answer(q, choice) == narrowed;
    }
  }


  // ---------------------------------------------------------------------------
  // Whole runs

  /** The state a session starts from: the first queued item becomes the candidate; into an empty order it is placed at once. */
  function Start(existing: seq<RankleItem>, newItems: seq<RankleItem>): (q: Search)
    ensures Poised(q)
  {
    var idle := Search(existing, newItems, 0, 0, None);
    if newItems == [] then idle
    else if existing == [] then Settle(Place(Begin(idle)))
    else Begin(idle)
  }

  /** Reference run: answer every probe with `pick` until nothing is left to place. */
  function RunSearch(q: Search, pick: Matchup -> MatchupChoice): (r: Search)
    requires Poised(q)
    ensures Poised(r) && r.candidate.None? && r.queue == []
    ensures |r.workingOrder| == |q.workingOrder| + Pending(q)
    decreases Pending(q), q.hi - q.lo
  {
    if q.candidate.None? then q else RunSearch(Answer(q, pick(Probe(q))), pick)
  }

  // ---------------------------------------------------------------------------
  // Permutation and relative order

  /**
   * `q` is a state of inserting `newItems`, in order, into `existing`: the
   * unplaced items are the tail of `newItems`, the placed ones are `existing`
   * plus its head, and the items of `existing` are still in their own order.
   */
  ghost predicate Tracks(q: Search, existing: seq<RankleItem>, newItems: seq<RankleItem>) {
    Pending(q) <= |newItems| &&
    var done := |newItems| - Pending(q);
    && InFlight(q) + q.queue == newItems[done..]
    && multiset(q.workingOrder) == multiset(existing + newItems[..done])
    && Without(q.workingOrder, newItems) == existing
  }

  lemma SettleTracks(q: Search, existing: seq<RankleItem>, newItems: seq<RankleItem>)
    requires q.candidate.None? && Tracks(q, existing, newItems)
    ensures Tracks(Settle(q), existing, newItems)
  {
    if q.queue != [] {
      var b := Begin(q);
      assert b.workingOrder == q.workingOrder && Pending(b) == Pending(q);
      assert InFlight(b) + b.queue == q.queue;
    }
  }

  lemma PlaceTracks(q: Search, existing: seq<RankleItem>, newItems: seq<RankleItem>)
    requires q.candidate.Some? && RangeOk(q) && Tracks(q, existing, newItems)
    ensures Tracks(Place(q), existing, newItems)
  {
    var done := |newItems| - Pending(q);
    var c := q.candidate.value;
    var p := Place(q);
    assert Pending(p) == Pending(q) - 1;
    assert [c] + q.queue == newItems[done..];
    assert c == newItems[done];
    assert q.queue == ([c] + q.queue)[1..] == newItems[done + 1..];
    assert InFlight(p) + p.queue == newItems[done + 1..];
    assert existing + newItems[..done + 1] == (existing + newItems[..done]) + [c];
    InsertAtMultiset(q.workingOrder, q.lo, c);
    assert multiset(p.workingOrder) == multiset(existing + newItems[..done + 1]);
    WithoutInsert(q.workingOrder, q.lo, c, newItems);
  }

  lemma AnswerTracks(q: Search, choice: MatchupChoice, existing: seq<RankleItem>, newItems: seq<RankleItem>)
    requires q.candidate.Some? && q.lo < q.hi <= |q.workingOrder|
    requires Tracks(q, existing, newItems)
    ensures Tracks(Answer(q, choice), existing, newItems)
  {
    var (lo', hi') := Narrow(q.lo, q.hi, Mid(q.lo, q.hi), choice);
    var narrowed := q.(lo := lo', hi := hi');
    assert InFlight(narrowed) == InFlight(q) && Pending(narrowed) == Pending(q);
    assert Tracks(narrowed, existing, newItems);
    if lo' == hi' {
      assert Answer(q, choice) == Settle(Place(narrowed));
      PlaceTracks(narrowed, existing, newItems);
      SettleTracks(Place(narrowed), existing, newItems);
    } else {
      assert Answer(q, choice) == narrowed;
    }
  }


  /** The unplaced items are the tail of `newItems`, in order. */
  ghost predicate Queued(q: Search, newItems: seq<RankleItem>) {
    Pending(q) <= |newItems| && InFlight(q) + q.queue == newItems[|newItems| - Pending(q)..]
  }

  /** An answer keeps the unplaced items a tail of the batch; the candidate is the first of them. */
  lemma AnswerQueued(q: Search, choice: MatchupChoice, newItems: seq<RankleItem>)
    requires q.candidate.Some? && q.lo < q.hi <= |q.workingOrder|
    requires Queued(q, newItems)
    ensures Queued(Answer(q, choice), newItems)
    ensures q.candidate.value == newItems[|newItems| - Pending(q)]
  {
    assert q.candidate.value == (InFlight(q) + q.queue)[0];
    var (lo', hi') := Narrow(q.lo, q.hi, Mid(q.lo, q.hi), choice);
    var narrowed := q.(lo := lo', hi := hi');
    assert InFlight(narrowed) == InFlight(q);
    if lo' == hi' {
      assert Answer(q, choice) == Settle(Place(narrowed));
      PlaceQueued(narrowed, newItems);
      SettleQueued(Place(narrowed), newItems);
    } else {
      assert Answer(q, choice) == narrowed;
    }
  }

  /** Placing the candidate keeps the unplaced items a tail of the batch. */
  lemma PlaceQueued(q: Search, newItems: seq<RankleItem>)
    requires q.candidate.Some? && RangeOk(q) && Queued(q, newItems)
    ensures Queued(Place(q), newItems)
  {
    var p := Place(q);
    var done := |newItems| - Pending(q);
    assert q.queue == (InFlight(q) + q.queue)[1..] == newItems[done + 1..];
    assert InFlight(p) + p.queue == q.queue;
  }

  /** Starting the next candidate keeps the unplaced items a tail of the batch. */
  lemma SettleQueued(p: Search, newItems: seq<RankleItem>)
    requires p.candidate.None? && Queued(p, newItems)
    ensures Queued(Settle(p), newItems)
  {
    if p.queue != [] {
      var b := Begin(p);
      assert InFlight(b) + b.queue == [p.queue[0]] + p.queue[1..] == p.queue;
    }
  }

  lemma StartQueued(existing: seq<RankleItem>, newItems: seq<RankleItem>)
    ensures Queued(Start(existing, newItems), newItems)
  {
    var idle := Search(existing, newItems, 0, 0, None);
    assert newItems[0..] == newItems;
    if newItems != [] {
      assert InFlight(Begin(idle)) + Begin(idle).queue == [newItems[0]] + newItems[1..] == newItems;
      if existing == [] {
        var p := Place(Begin(idle));
        assert newItems[1..] == newItems[|newItems| - Pending(p)..];
        if newItems[1..] != [] {
          assert InFlight(Begin(p)) + Begin(p).queue == [newItems[1]] + newItems[2..] == newItems[1..];
        }
      }
    }
  }

  lemma {:induction false} RunTracks(q: Search, pick: Matchup -> MatchupChoice, existing: seq<RankleItem>, newItems: seq<RankleItem>)
    requires Poised(q) && Tracks(q, existing, newItems)
    ensures Tracks(RunSearch(q, pick), existing, newItems)
    decreases Pending(q), q.hi - q.lo
  {
    if q.candidate.Some? {
      AnswerTracks(q, pick(Probe(q)), existing, newItems);
      RunTracks(Answer(q, pick(Probe(q))), pick, existing, newItems);
    }
  }

  lemma StartTracks(existing: seq<RankleItem>, newItems: seq<RankleItem>)
    requires forall x :: x in existing ==> x !in newItems
    ensures Tracks(Start(existing, newItems), existing, newItems)
  {
    var idle := Search(existing, newItems, 0, 0, None);
    WithoutNothingShared(existing, newItems);
    assert existing + newItems[..0] == existing;
    assert Tracks(idle, existing, newItems);
    if newItems != [] {
      SettleTracks(idle, existing, newItems);
      if existing == [] {
        PlaceTracks(Begin(idle), existing, newItems);
        SettleTracks(Place(Begin(idle)), existing, newItems);
      }
    }
  }

  /**
   * Inserting `newItems` into `existing`, whatever the answers, ends with a
   * permutation of `existing ++ newItems` in which the items of `existing` keep
   * their relative order.
   */
  lemma InsertionPermutes(existing: seq<RankleItem>, newItems: seq<RankleItem>, pick: Matchup -> MatchupChoice)
    requires forall x :: x in existing ==> x !in newItems
    ensures var w := RunSearch(Start(existing, newItems), pick).workingOrder;
            && |w| == |existing| + |newItems|
            && multiset(w) == multiset(existing + newItems)
            && Without(w, newItems) == existing
  {
    var q := Start(existing, newItems);
    StartTracks(existing, newItems);
    RunTracks(q, pick, existing, newItems);
    TracksFinished(RunSearch(q, pick), existing, newItems);
  }

  lemma TracksFinished(r: Search, existing: seq<RankleItem>, newItems: seq<RankleItem>)
    requires Tracks(r, existing, newItems) && Pending(r) == 0
    ensures multiset(r.workingOrder) == multiset(existing + newItems)
  {
    var done := |newItems| - Pending(r);
    assert done == |newItems|;
    assert newItems[..done] == newItems;
  }

  // ---------------------------------------------------------------------------
  // Sortedness under consistent answers

  /** Best first: `key` never increases along the sequence. */
  ghost predicate SortedDesc(xs: seq<RankleItem>, key: RankleItem -> int) {
    forall i, j :: 0 <= i < j < |xs| ==> key(xs[i]) >= key(xs[j])
  }

  /** The answer a person with the fixed strict preference "higher key is better" gives. */
  function Prefer(key: RankleItem -> int): Matchup -> MatchupChoice {
    (m: Matchup) => if key(m.left) > key(m.right) then Left else Right
  }

  /** The placed items are sorted, and the candidate belongs somewhere in [lo, hi]. */
  ghost predicate Brackets(q: Search, key: RankleItem -> int) {
    && SortedDesc(q.workingOrder, key)
    && (q.candidate.Some? && RangeOk(q) ==>
          && (forall k :: 0 <= k < q.lo ==> key(q.workingOrder[k]) >= key(q.candidate.value))
          && (forall k :: q.hi <= k < |q.workingOrder| ==> key(q.workingOrder[k]) < key(q.candidate.value)))
  }

  lemma PlaceSorted(q: Search, key: RankleItem -> int)
    requires q.candidate.Some? && RangeOk(q) && q.lo == q.hi && Brackets(q, key)
    ensures SortedDesc(Place(q).workingOrder, key)
  {
    var w := q.workingOrder;
    var c := q.candidate.value;
    var r := InsertAt(w, q.lo, c);
    forall i, j | 0 <= i < j < |r|
      ensures key(r[i]) >= key(r[j])
    {
      if j < q.lo {
      } else if j == q.lo {
        assert r[i] == w[i];
      } else if i < q.lo {
        assert r[i] == w[i] && r[j] == w[j - 1];
      } else if i == q.lo {
        assert r[j] == w[j - 1];
      } else {
        assert r[i] == w[i - 1] && r[j] == w[j - 1];
      }
    }
  }

  lemma AnswerBrackets(q: Search, key: RankleItem -> int)
    requires q.candidate.Some? && q.lo < q.hi <= |q.workingOrder|
    requires Brackets(q, key)
    ensures Brackets(Answer(q, Prefer(key)(Probe(q))), key)
  {
    var choice := Prefer(key)(Probe(q));
    var mid := Mid(q.lo, q.hi);
    var c := q.candidate.value;
    var w := q.workingOrder;
    var (lo', hi') := Narrow(q.lo, q.hi, mid, choice);
    var narrowed := q.(lo := lo', hi := hi');
    if choice == Left {
      assert key(c) > key(w[mid]);
      forall k | hi' <= k < |w| ensures key(w[k]) < key(c) {
        if k < q.hi {
          assert mid <= k;
          assert mid == k || key(w[mid]) >= key(w[k]);
        }
      }
    } else {
      assert key(c) <= key(w[mid]);
      forall k | 0 <= k < lo' ensures key(w[k]) >= key(c) {
        if k >= q.lo {
          assert k <= mid;
          assert k == mid || key(w[k]) >= key(w[mid]);
        }
      }
    }
    assert Brackets(narrowed, key);
    if lo' == hi' {
      PlaceSorted(narrowed, key);
    }
  }

  lemma {:induction false} RunBrackets(q: Search, key: RankleItem -> int)
    requires Poised(q) && Brackets(q, key)
    ensures Brackets(RunSearch(q, Prefer(key)), key)
    decreases Pending(q), q.hi - q.lo
  {
    if q.candidate.Some? {
      AnswerBrackets(q, key);
      RunBrackets(Answer(q, Prefer(key)(Probe(q))), key);
    }
  }

  /**
   * If the existing order is sorted best-first and every matchup is answered by
   * one fixed strict preference, the final order is sorted best-first.
   */
  lemma InsertionSorts(existing: seq<RankleItem>, newItems: seq<RankleItem>, key: RankleItem -> int)
    requires SortedDesc(existing, key)
    ensures SortedDesc(RunSearch(Start(existing, newItems), Prefer(key)).workingOrder, key)
  {
    var idle := Search(existing, newItems, 0, 0, None);
    if newItems != [] && existing == [] {
      PlaceSorted(Begin(idle), key);
    }
    RunBrackets(Start(existing, newItems), key);
  }

  // ---------------------------------------------------------------------------
  // Always preferring the candidate

  function AlwaysLeft(): Matchup -> MatchupChoice {
    (m: Matchup) => Left
  }

  /** While the candidate always wins, each placed item went to the front. */
  ghost predicate Front(q: Search, existing: seq<RankleItem>, newItems: seq<RankleItem>) {
    Pending(q) <= |newItems| &&
    var done := |newItems| - Pending(q);
    && InFlight(q) + q.queue == newItems[done..]
    && q.workingOrder == Reverse(newItems[..done]) + existing
    && (q.candidate.Some? ==> q.lo == 0)
  }

  lemma PlaceFront(q: Search, existing: seq<RankleItem>, newItems: seq<RankleItem>)
    requires q.candidate.Some? && RangeOk(q) && Front(q, existing, newItems)
    ensures Front(Settle(Place(q)), existing, newItems)
  {
    PlacedFront(q, existing, newItems);
    SettledFront(Place(q), existing, newItems);
  }

  lemma PlacedFront(q: Search, existing: seq<RankleItem>, newItems: seq<RankleItem>)
    requires q.candidate.Some? && RangeOk(q) && Front(q, existing, newItems)
    ensures Front(Place(q), existing, newItems)
  {
    var done := |newItems| - Pending(q);
    var c := q.candidate.value;
    assert [c] + q.queue == newItems[done..];
    assert c == newItems[done];
    assert q.queue == newItems[done + 1..];
    assert newItems[..done + 1] == newItems[..done] + [c];
    ReverseSnoc(newItems[..done], c);
    assert InsertAt(q.workingOrder, 0, c) == [c] + q.workingOrder;
  }

  lemma SettledFront(p: Search, existing: seq<RankleItem>, newItems: seq<RankleItem>)
    requires p.candidate.None? && Front(p, existing, newItems)
    ensures Front(Settle(p), existing, newItems)
  {
    if p.queue != [] {
      var b := Begin(p);
      assert b.workingOrder == p.workingOrder && Pending(b) == Pending(p);
      assert InFlight(b) + b.queue == p.queue;
    }
  }

  lemma {:induction false} RunFront(q: Search, existing: seq<RankleItem>, newItems: seq<RankleItem>)
    requires Poised(q) && Front(q, existing, newItems)
    ensures Front(RunSearch(q, AlwaysLeft()), existing, newItems)
    decreases Pending(q), q.hi - q.lo
  {
    if q.candidate.Some? {
      var (lo', hi') := Narrow(q.lo, q.hi, Mid(q.lo, q.hi), Left);
      if lo' == hi' {
        PlaceFront(q.(lo := lo', hi := hi'), existing, newItems);
      }
      RunFront(Answer(q, Left), existing, newItems);
    }
  }

  /** Always preferring the candidate puts every new item in front, latest first. */
  lemma AlwaysLeftPrepends(existing: seq<RankleItem>, newItems: seq<RankleItem>)
    ensures RunSearch(Start(existing, newItems), AlwaysLeft()).workingOrder == Reverse(newItems) + existing
  {
    StartFront(existing, newItems);
    FrontPrepends(Start(existing, newItems), existing, newItems);
  }

  /** From a front-inserting state, always preferring the candidate ends with every new item in front. */
  lemma FrontPrepends(q: Search, existing: seq<RankleItem>, newItems: seq<RankleItem>)
    requires Poised(q) && Front(q, existing, newItems)
    ensures RunSearch(q, AlwaysLeft()).workingOrder == Reverse(newItems) + existing
  {
    RunFront(q, existing, newItems);
    FrontDone(RunSearch(q, AlwaysLeft()), existing, newItems);
  }

  /** A front-inserting state with nothing pending holds every new item in front, latest first. */
  lemma FrontDone(r: Search, existing: seq<RankleItem>, newItems: seq<RankleItem>)
    requires Front(r, existing, newItems) && r.candidate.None? && r.queue == []
    ensures r.workingOrder == Reverse(newItems) + existing
  {
    assert Pending(r) == 0;
    assert newItems[..|newItems|] == newItems;
  }

  lemma StartFront(existing: seq<RankleItem>, newItems: seq<RankleItem>)
    ensures Front(Start(existing, newItems), existing, newItems)
  {
    var idle := Search(existing, newItems, 0, 0, None);
    assert newItems[..0] == [];
    assert Front(idle, existing, newItems);
    if newItems != [] {
      assert InFlight(Begin(idle)) + Begin(idle).queue == newItems;
      if existing == [] {
        PlaceFront(Begin(idle), existing, newItems);
      }
    }
  }

  // ---------------------------------------------------------------------------
  // Number of matchups per candidate

  function Pow2(k: nat): nat {
    if k == 0 then 1 else 2 * Pow2(k - 1)
  }

  /** The number of binary digits of `n`, i.e. the least k with n < 2^k. */
  function Bits(n: nat): nat {
    if n == 0 then 0 else 1 + Bits(n / 2)
  }

  /** `Bits(n)` is ceil(log2(n + 1)): the least k with n + 1 <= 2^k. */
  lemma {:induction false} BitsIsCeilLog2(n: nat)
    ensures n < Pow2(Bits(n))
    ensures n > 0 ==> Pow2(Bits(n) - 1) <= n
  {
    if n > 0 {
      BitsIsCeilLog2(n / 2);
    }
  }

  lemma {:induction false} BitsMonotone(a: nat, b: nat)
    requires a <= b
    ensures Bits(a) <= Bits(b)
  {
    if a > 0 {
      BitsMonotone(a / 2, b / 2);
    }
  }

  /** An answer that does not place the candidate leaves it at least one fewer probe. */
  lemma AnswerSpendsAProbe(q: Search, choice: MatchupChoice)
    requires q.candidate.Some? && q.lo < q.hi <= |q.workingOrder|
    ensures var r := Answer(q, choice);
            Pending(r) == Pending(q) ==> Bits(r.hi - r.lo) < Bits(q.hi - q.lo)
  {
    var r := Answer(q, choice);
    if Pending(r) == Pending(q) {
      BitsMonotone(r.hi - r.lo, (q.hi - q.lo) / 2);
    }
  }

  /** Answers applied one after another; once nothing is in flight the rest are ignored. */
  function AnswerAll(q: Search, choices: seq<MatchupChoice>): (r: Search)
    requires Poised(q)
    ensures Poised(r)
    decreases |choices|
  {
    if choices == [] || q.candidate.None? then q
    else AnswerAll(Answer(q, choices[0]), choices[1..])
  }

  lemma AnswerAllIdle(q: Search, choices: seq<MatchupChoice>)
    requires Poised(q)
    ensures q.candidate.None? ==> AnswerAll(q, choices) == q
  {
  }

  lemma {:induction false} AnswerAllKeepsPlaced(q: Search, choices: seq<MatchupChoice>, x: RankleItem)
    requires Poised(q) && x in q.workingOrder
    ensures x in AnswerAll(q, choices).workingOrder
    decreases |choices|
  {
    if choices != [] && q.candidate.Some? {
      var r := Answer(q, choices[0]);
      if Pending(r) != Pending(q) {
        InsertAtMultiset(q.workingOrder, Landing(q, choices[0]), q.candidate.value);
        assert x in multiset(r.workingOrder);
      }
      AnswerAllKeepsPlaced(r, choices[1..], x);
    }
  }

  /**
   * The candidate is placed within Bits(hi - lo) answers, whatever they are. A
   * fresh candidate has the range [0, n), so it costs at most ceil(log2(n + 1))
   * matchups (see BitsIsCeilLog2).
   */
  lemma {:induction false} PlacedWithinBits(q: Search, choices: seq<MatchupChoice>)
    requires Poised(q) && q.candidate.Some?
    requires |choices| >= Bits(q.hi - q.lo)
    ensures q.candidate.value in AnswerAll(q, choices).workingOrder
    decreases |choices|
  {
    var c := q.candidate.value;
    assert Bits(q.hi - q.lo) > 0;
    var r := Answer(q, choices[0]);
    AnswerSpendsAProbe(q, choices[0]);
    if Pending(r) == Pending(q) {
      PlacedWithinBits(r, choices[1..]);
    } else {
      assert r.workingOrder[Landing(q, choices[0])] == c;
      AnswerAllKeepsPlaced(r, choices[1..], c);
    }
  }

  /** How many matchups a run shows before it finishes. */
  function Matchups(q: Search, pick: Matchup -> MatchupChoice): nat
    requires Poised(q)
    decreases Pending(q), q.hi - q.lo
  {
    if q.candidate.None? then 0 else 1 + Matchups(Answer(q, pick(Probe(q))), pick)
  }

  /** Items of the finished order: the placed ones and the unplaced ones. */
  function Size(q: Search): nat {
    |q.workingOrder| + Pending(q)
  }

  /**
   * The matchups a state can still cost: Bits(hi - lo) for the candidate, and
   * for each queued item Bits of the most items it can be probed against,
   * which is one fewer than the finished order.
   */
  function Budget(q: Search): nat
    requires RangeOk(q)
  {
    (if q.candidate.Some? then Bits(q.hi - q.lo) else 0)
    + (if q.queue == [] then 0 else Times(|q.queue|, Bits(Size(q) - 1)))
  }

  /** `count * b` as repeated addition, which keeps the budget proofs linear (see TimesIsProduct). */
  function Times(count: nat, b: nat): nat {
    if count == 0 then 0 else b + Times(count - 1, b)
  }

  lemma {:induction false} TimesIsProduct(count: nat, b: nat)
    ensures Times(count, b) == count * b
  {
    if count > 0 {
      TimesIsProduct(count - 1, b);
    }
  }

  /** When an answer places the candidate, the next queued item starts with every slot open. */
  lemma AnswerPlaces(q: Search, choice: MatchupChoice)
    requires q.candidate.Some? && q.lo < q.hi <= |q.workingOrder|
    ensures var r := Answer(q, choice);
            && Size(r) == Size(q)
            && (Pending(r) != Pending(q) && q.queue != [] ==>
                  && r.queue == q.queue[1..] && r.candidate.Some?
                  && r.lo == 0 && r.hi == |q.workingOrder| + 1)
  {
    var (lo', hi') := Narrow(q.lo, q.hi, Mid(q.lo, q.hi), choice);
    var narrowed := q.(lo := lo', hi := hi');
    if lo' == hi' {
      assert Answer(q, choice) == Settle(Place(narrowed));
    } else {
      assert Answer(q, choice) == narrowed;
    }
  }

  /** Every answer uses up at least one matchup of the budget. */
  lemma AnswerSpendsBudget(q: Search, choice: MatchupChoice)
    requires q.candidate.Some? && q.lo < q.hi <= |q.workingOrder|
    ensures Budget(Answer(q, choice)) < Budget(q)
  {
    var r := Answer(q, choice);
    AnswerSpendsAProbe(q, choice);
    AnswerPlaces(q, choice);
    if Pending(r) == Pending(q) {
      NarrowedBudget(q, r);
    } else if q.queue != [] {
      NextBudget(q, r);
    } else {
      assert Pending(r) == 0;
      assert Bits(q.hi - q.lo) >= 1;
    }
  }

  /** Narrowing the range, with nothing else changed, lowers the budget by what the candidate's probes drop. */
  lemma NarrowedBudget(q: Search, r: Search)
    requires q.candidate.Some? && RangeOk(q) && RangeOk(r)
    requires r == q.(lo := r.lo, hi := r.hi) && Bits(r.hi - r.lo) < Bits(q.hi - q.lo)
    ensures Budget(r) < Budget(q)
  {
    assert Size(r) == Size(q);
  }

  /** Placing a candidate and starting the next queued item over all slots lowers the budget. */
  lemma NextBudget(q: Search, r: Search)
    requires q.candidate.Some? && q.lo < q.hi && RangeOk(q) && RangeOk(r) && q.queue != []
    requires Size(r) == Size(q) && |r.queue| + 1 == |q.queue| && r.candidate.Some?
    requires r.lo == 0 && r.hi == |q.workingOrder| + 1
    ensures Budget(r) < Budget(q)
  {
    var n, k := Size(q) - 1, |r.queue|;
    assert |InFlight(q)| == 1;
    BudgetOfCandidate(q, n, k + 1);
    BudgetOfCandidate(r, n, k);
    NextBudgetBits(q.hi - q.lo, r.hi - r.lo, n, k);
  }

  /** With a candidate, the budget is its probes plus the per-item budget times the queue length. */
  lemma BudgetOfCandidate(q: Search, n: nat, k: nat)
    requires RangeOk(q) && q.candidate.Some? && Size(q) == n + 1 && |q.queue| == k
    ensures Budget(q) == Bits(q.hi - q.lo) + Times(k, Bits(n))
  {
  }

  /** A candidate with probes left, then one with at most `Bits(n)`, costs less than both at their budgets. */
  lemma NextBudgetBits(a: nat, w: nat, n: nat, k: nat)
    requires a > 0 && w <= n
    ensures Bits(w) + Times(k, Bits(n)) < Bits(a) + Times(k + 1, Bits(n))
  {
    BitsMonotone(w, n);
  }


  /** A run shows at most `Budget` matchups, whatever the answers. */
  lemma {:induction false} MatchupsWithinBudget(q: Search, pick: Matchup -> MatchupChoice)
    requires Poised(q)
    ensures Matchups(q, pick) <= Budget(q)
    decreases Pending(q), q.hi - q.lo
  {
    if q.candidate.Some? {
      var choice := pick(Probe(q));
      MatchupsWithinBudget(Answer(q, choice), pick);
      AnswerSpendsBudget(q, choice);
    }
  }

  /**
   * A fresh candidate: it has slots left to probe, at most `size` of them, and
   * `total - 1` items are queued behind it in a run whose finished order has
   * `size + 1` items.
   */
  predicate FreshCandidate(q: Search, total: nat, size: nat) {
    && Poised(q) && q.candidate.Some? && q.hi - q.lo <= size
    && |q.queue| + 1 == total && Size(q) - 1 == size
  }

  /** With items on both sides, a session starts on a fresh candidate whose range is the whole existing order. */
  lemma StartFresh(existing: seq<RankleItem>, newItems: seq<RankleItem>)
    requires existing != [] && newItems != []
    ensures FreshCandidate(Start(existing, newItems), |newItems|, |existing| + |newItems| - 1)
    ensures Start(existing, newItems).hi - Start(existing, newItems).lo == |existing|
  {
  }

  /** The probes of the first candidate over all `existing` slots. */
  lemma StartProbes(existing: seq<RankleItem>, newItems: seq<RankleItem>)
    requires existing != [] && newItems != []
    ensures Bits(Start(existing, newItems).hi - Start(existing, newItems).lo) == Bits(|existing|)
  {
    StartFresh(existing, newItems);
  }

  /**
   * With items on both sides, a session shows at most Bits(n) matchups for
   * the first of its k new items and Bits(n + k - 1) for each later one.
   */
  lemma StartMatchups(existing: seq<RankleItem>, newItems: seq<RankleItem>, pick: Matchup -> MatchupChoice)
    requires existing != [] && newItems != []
    ensures Matchups(Start(existing, newItems), pick)
            <= Bits(|existing|) + (|newItems| - 1) * Bits(|existing| + |newItems| - 1)
    ensures Matchups(Start(existing, newItems), pick) <= |newItems| * Bits(|existing| + |newItems| - 1)
  {
    StartFresh(existing, newItems);
    StartProbes(existing, newItems);
    FreshBounds(Start(existing, newItems), pick);
  }

  /** `FreshMatchups` for every count and size that make `q` a fresh candidate. */
  lemma FreshBounds(q: Search, pick: Matchup -> MatchupChoice)
    ensures forall total: nat, size: nat | FreshCandidate(q, total, size) ::
              && Matchups(q, pick) <= Bits(q.hi - q.lo) + (total - 1) * Bits(size)
              && Matchups(q, pick) <= total * Bits(size)
  {
    forall total: nat, size: nat | FreshCandidate(q, total, size)
      ensures Matchups(q, pick) <= Bits(q.hi - q.lo) + (total - 1) * Bits(size)
      ensures Matchups(q, pick) <= total * Bits(size)
    {
      FreshMatchups(q, total, size, pick);
    }
  }

  /** The budget of a fresh candidate: its own probes, then `size` slots' worth for each queued item. */
  lemma BudgetBound(q: Search, total: nat, size: nat)
    requires FreshCandidate(q, total, size)
    ensures Budget(q) <= Bits(q.hi - q.lo) + Times(total - 1, Bits(size))
    ensures Budget(q) <= Times(total, Bits(size))
  {
    BitsMonotone(q.hi - q.lo, size);
    assert Times(total, Bits(size)) == Bits(size) + Times(|q.queue|, Bits(size));
  }

  /**
   * Inserting a fresh candidate and the `total - 1` items queued behind it
   * shows at most Bits(hi - lo) + (total - 1) * Bits(size) matchups, and so at
   * most total * Bits(size), whatever the answers.
   */
  lemma FreshMatchups(q: Search, total: nat, size: nat, pick: Matchup -> MatchupChoice)
    requires FreshCandidate(q, total, size)
    ensures Matchups(q, pick) <= Bits(q.hi - q.lo) + (total - 1) * Bits(size)
    ensures Matchups(q, pick) <= total * Bits(size)
  {
    BudgetBound(q, total, size);
    MatchupsWithinBudget(q, pick);
    TimesIsProduct(total - 1, Bits(size));
    TimesIsProduct(total, Bits(size));
  }
}
