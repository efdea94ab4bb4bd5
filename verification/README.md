# Rankle ranking core in Dafny

Rankle is an iOS app for ranking lists. A person answers "which do you prefer?"
matchups, and the app builds the order by binary insertion. This project models
the app's core as pure Dafny functions and proves properties about them:

- **Binary insertion** (`binary_insertion.dfy`, module `BinaryInsertion`). Two
  view models share this search line for line. A `Search` holds four things:
  - the placed items (`workingOrder`);
  - the queue of items still to place;
  - the candidate;
  - the half-open range `[lo, hi)` of slots the candidate may still take.

  `Answer` is one answered matchup and `RunSearch` is a whole run in which
  every matchup is answered by a `pick` function. The module proves what a run
  guarantees:
  - the result is a permutation, and the existing items keep their relative
    order;
  - it is sorted when the answers follow one fixed preference;
  - always preferring the candidate reverses the input;
  - the number of matchups is bounded.
- **Ranking a whole list** (`ranking.dfy`, `RankingViewModel`).
  - The first item seeds the order; each later item is inserted.
  - On completion the list takes the new order.
  - `Choose` is proved to take exactly the reference step `Answer`, so the
    run properties above carry over to the view model.
- **Ranking newly added items into a ranked list** (`add_item_ranking.dfy`,
  `AddItemRankingViewModel`).
  - The same search, plus the progress counters `processedCount` and
    `totalCount`.
  - `insertedPosition`, the slot the last new item took.
- **List management** (`lists.dfy`, `ListsViewModel`):
  - creating a list, which drops titles made only of whitespace;
  - deleting lists by offset;
  - renaming, adding an item, and replacing a list, each by list identifier;
  - importing a list under a fresh identifier.
- **Clipboard text** (`sharing.dfy`, `SharingService.generateClipboardText`):
  a header, numbered lines, and a footer.
- **Dropping items on a tier** (`tier_drop.dfy`, `TierListView.handleDrop`).

Several things from the app become parameters:

- Identifiers drawn with `UUID()` are parameters: `Uuid` is a `nat`, and only
  its equality is used.
- The person answering matchups is a function `pick: Matchup -> MatchupChoice`,
  or a sequence of answers.
- The `onUpdate` callback of the tier screen is the value it would be called
  with.

`wrappers.dfy` holds `Option`. `models.dfy` holds the records of
`Models.swift` and small sequence facts.

## Model

| member | source | states |
|---|---|---|
| Models.FirstIndex | Rankle/Sources/ViewModels/RankingViewModel.swift:57 | `firstIndex(of:)` on an item that is present: the index holds the item and no earlier index does |
| Models.FirstIndexOfDistinct | Rankle/Sources/ViewModels/RankingViewModel.swift:57 | in a sequence of distinct items, looking up the item at slot i gives back i, so the force-unwrapped lookup of the probed item finds exactly the probed slot |
| BinaryInsertion.PlacedDistinct | Rankle/Sources/ViewModels/RankingViewModel.swift:57 | when every item of a session is distinct, the placed items are distinct and the candidate is not among them |
| BinaryInsertion.Mid | Rankle/Sources/ViewModels/RankingViewModel.swift:50 | the probed slot lies inside the non-empty range, at half its width from `lo` |
| BinaryInsertion.Narrow | Rankle/Sources/ViewModels/RankingViewModel.swift:58-65 | preferring the candidate keeps the slots before the probe, and preferring the probed item keeps the slots after it. The probe itself is never kept, and probing the middle at least halves the range |
| BinaryInsertion.InsertAt | Rankle/Sources/ViewModels/RankingViewModel.swift:45 | `Array.insert(_:at:)` lengthens the order by one and puts the item at the given slot |
| BinaryInsertion.InsertAtIndices | Rankle/Sources/ViewModels/RankingViewModel.swift:45 | `Array.insert(_:at:)` keeps the items before the slot where they were and moves each item from the slot on one place later |
| BinaryInsertion.Probe | Rankle/Sources/ViewModels/RankingViewModel.swift:50-51 | the matchup shown puts the candidate on the left against an already placed item from inside its range |
| BinaryInsertion.Landing | Rankle/Sources/ViewModels/RankingViewModel.swift:58-65 | the slot a candidate lands on when its range empties lies inside the range: `lo` when it wins the last matchup, just past the probe when it loses |
| BinaryInsertion.Begin | Rankle/Sources/ViewModels/RankingViewModel.swift:37-38 | taking the head of the queue as the candidate leaves the session's items, and the number of unplaced ones, unchanged |
| BinaryInsertion.Place | Rankle/Sources/ViewModels/RankingViewModel.swift:45-46 | inserting the candidate at `lo` puts it in that slot, lengthens the order by one, clears the candidate and leaves one fewer item unplaced, with the queue unchanged |
| BinaryInsertion.Settle | Rankle/Sources/ViewModels/RankingViewModel.swift:32-40 | after a placement, moving on keeps the placed order, the session's items and the number of unplaced ones. A new candidate is presented, with every slot open, exactly when something was queued |
| BinaryInsertion.PlaceDistinct | Rankle/Sources/ViewModels/RankingViewModel.swift:45 | inserting the candidate at `lo` keeps all items distinct |
| BinaryInsertion.Answer | Rankle/Sources/ViewModels/RankingViewModel.swift:42-68 | an answer either narrows the range to at most half its width and changes nothing else, or inserts the candidate at the slot the answer lands on with one fewer item unplaced. Afterwards a candidate always has slots left, and no candidate means the queue is empty |
| BinaryInsertion.AnswerDistinct | Rankle/Sources/ViewModels/RankingViewModel.swift:54-68 | every answer keeps all items of the session distinct |
| BinaryInsertion.Start | Rankle/Sources/ViewModels/AddItemRankingViewModel.swift:15-32 | the starting state is well-formed: a candidate has open slots, and no candidate means nothing is queued |
| BinaryInsertion.RunSearch | Rankle/Sources/ViewModels/RankingViewModel.swift:32-68 | answering until done places every unplaced item: nothing is in flight or queued, and the order has grown by the number of unplaced items |
| BinaryInsertion.SettleTracks | Rankle/Sources/ViewModels/RankingViewModel.swift:32-40 | starting the next candidate keeps the insertion invariant: the unplaced items are the tail of the batch, and the placed ones are a permutation of the existing items plus the batch's head, with the existing items in order |
| BinaryInsertion.PlaceTracks | Rankle/Sources/ViewModels/RankingViewModel.swift:44-47 | inserting the candidate keeps the insertion invariant |
| BinaryInsertion.AnswerTracks | Rankle/Sources/ViewModels/RankingViewModel.swift:54-68 | every answer keeps the insertion invariant |
| BinaryInsertion.AnswerQueued | Rankle/Sources/ViewModels/AddItemRankingViewModel.swift:28 | new items are taken in batch order: an answer keeps the unplaced items a tail of the batch, and the candidate is the first of them |
| BinaryInsertion.StartQueued | Rankle/Sources/ViewModels/AddItemRankingViewModel.swift:15-32 | the unplaced items of the starting state are a tail of the batch |
| BinaryInsertion.RunTracks | Rankle/Sources/ViewModels/RankingViewModel.swift:32-68 | a whole run keeps the insertion invariant |
| BinaryInsertion.StartTracks | Rankle/Sources/ViewModels/AddItemRankingViewModel.swift:15-32 | the starting state satisfies the insertion invariant when no existing item is also new |
| BinaryInsertion.TracksFinished | Rankle/Sources/ViewModels/AddItemRankingViewModel.swift:63-69 | once nothing is unplaced, the order is a permutation of the existing items plus the batch |
| BinaryInsertion.InsertionPermutes | Rankle/Sources/ViewModels/AddItemRankingViewModel.swift:23-61 | whatever the answers, the final order has every existing and new item exactly once, and the existing items keep their relative order |
| BinaryInsertion.PlaceSorted | Rankle/Sources/ViewModels/RankingViewModel.swift:44-45 | inserting a candidate whose slot is bracketed by better and worse items keeps a best-first order sorted |
| BinaryInsertion.AnswerBrackets | Rankle/Sources/ViewModels/RankingViewModel.swift:58-65 | when the answer follows a fixed preference, the candidate belongs after every item before `lo` and before every item from `hi` on, and answers keep this |
| BinaryInsertion.RunBrackets | Rankle/Sources/ViewModels/RankingViewModel.swift:54-68 | a run answered by a fixed preference keeps the bracket invariant |
| BinaryInsertion.InsertionSorts | Rankle/Sources/ViewModels/AddItemRankingViewModel.swift:23-61 | when the existing order is sorted best-first and every answer follows one fixed strict preference, the final order is sorted best-first |
| BinaryInsertion.PlaceFront | Rankle/Sources/ViewModels/RankingViewModel.swift:44-47 | while the candidate always wins, each placed item goes to the front |
| BinaryInsertion.PlacedFront | Rankle/Sources/ViewModels/RankingViewModel.swift:44-45 | inserting a candidate that won every matchup at slot 0 puts it ahead of the items placed before it |
| BinaryInsertion.SettledFront | Rankle/Sources/ViewModels/RankingViewModel.swift:32-40 | taking the next queued item as candidate keeps the always-in-front invariant |
| BinaryInsertion.RunFront | Rankle/Sources/ViewModels/RankingViewModel.swift:54-68 | a run that always prefers the candidate keeps the always-in-front invariant |
| BinaryInsertion.StartFront | Rankle/Sources/ViewModels/AddItemRankingViewModel.swift:15-32 | the starting state satisfies the always-in-front invariant |
| BinaryInsertion.AlwaysLeftPrepends | Rankle/Sources/ViewModels/RankingViewModel.swift:59-61 | always preferring the candidate gives the new items, latest first, followed by the existing items |
| BinaryInsertion.BitsIsCeilLog2 | Rankle/Sources/ViewModels/RankingViewModel.swift:50 | the probe budget `Bits(n)` is ceil(log2(n + 1)) |
| BinaryInsertion.BitsMonotone | Rankle/Sources/ViewModels/RankingViewModel.swift:50 | a wider range never has a smaller probe budget |
| BinaryInsertion.AnswerSpendsAProbe | Rankle/Sources/ViewModels/RankingViewModel.swift:50-65 | an answer that does not place the candidate strictly lowers its probe budget |
| BinaryInsertion.AnswerAllKeepsPlaced | Rankle/Sources/ViewModels/RankingViewModel.swift:44-45 | a placed item is never removed by later answers |
| BinaryInsertion.PlacedWithinBits | Rankle/Sources/ViewModels/RankingViewModel.swift:42-68 | whatever the answers, the candidate is placed within `Bits(hi - lo)` of them. A fresh candidate among n placed items needs at most ceil(log2(n + 1)) |
| BinaryInsertion.AnswerPlaces | Rankle/Sources/ViewModels/AddItemRankingViewModel.swift:23-47 | an answer keeps the final size. When it places the candidate and something is queued, the next item starts with every slot open and the queue shortened by one |
| BinaryInsertion.AnswerSpendsBudget | Rankle/Sources/ViewModels/AddItemRankingViewModel.swift:34-61 | every answer strictly lowers the remaining matchup budget |
| BinaryInsertion.NarrowedBudget | Rankle/Sources/ViewModels/AddItemRankingViewModel.swift:49-61 | an answer that only narrows the range lowers the budget when it lowers the candidate's probe count |
| BinaryInsertion.NextBudget | Rankle/Sources/ViewModels/AddItemRankingViewModel.swift:23-46 | placing the candidate and starting the next queued item over all slots lowers the budget |
| BinaryInsertion.MatchupsWithinBudget | Rankle/Sources/ViewModels/AddItemRankingViewModel.swift:34-61 | a run shows at most `Budget` matchups, whatever the answers |
| BinaryInsertion.StartFresh | Rankle/Sources/ViewModels/AddItemRankingViewModel.swift:15-32 | with items on both sides, the start is a fresh candidate whose range is the whole existing order, with the rest of the batch queued: k new items, a final order of n + k items, and a range of width n |
| BinaryInsertion.BudgetBound | Rankle/Sources/ViewModels/AddItemRankingViewModel.swift:23-32 | a fresh candidate with `total - 1` items queued, in a session whose final order has `size + 1` items, has a budget of at most `Bits(hi - lo)` plus `total - 1` times `Bits(size)`, and so at most `total` times `Bits(size)` |
| BinaryInsertion.FreshMatchups | Rankle/Sources/ViewModels/AddItemRankingViewModel.swift:23-61 | whatever the answers, such a state shows at most `Bits(hi - lo) + (total - 1) * Bits(size)` matchups, and at most `total * Bits(size)` |
| BinaryInsertion.StartMatchups | Rankle/Sources/ViewModels/AddItemRankingViewModel.swift:15-61 | with k new items and n > 0 existing ones, a session shows at most `Bits(n) + (k - 1) * Bits(n + k - 1)` matchups, and at most `k * Bits(n + k - 1)`, whatever the answers |
| Ranking.DropFirst | Rankle/Sources/ViewModels/RankingViewModel.swift:28 | `Array(xs.dropFirst())` is the tail after the first item, and empty for an empty array |
| Ranking.CompleteSession | Rankle/Sources/ViewModels/RankingViewModel.swift:70-73 | completion marks the session complete and gives the list the working order; its identity and name stay |
| Ranking.NextInsertion | Rankle/Sources/ViewModels/RankingViewModel.swift:32-40 | from a between-matchups state, it either completes (empty queue) or shows the next item against the middle of the whole order. The list changes only by completion |
| Ranking.PromptNextComparison | Rankle/Sources/ViewModels/RankingViewModel.swift:42-52 | without a candidate nothing changes. With slots left it shows the candidate against the middle slot. With an empty range it inserts the candidate at `lo` and moves on |
| Ranking.StartPairwiseSort | Rankle/Sources/ViewModels/RankingViewModel.swift:22-30 | with at most one working item it only marks completion. Otherwise it seeds the order with the first item, queues the list's other items, and shows the second item against the seed |
| Ranking.Init | Rankle/Sources/ViewModels/RankingViewModel.swift:13-20 | a list of 0 or 1 items is complete at once, with no matchup. A longer one first shows `(items[1], items[0])` and is not complete |
| Ranking.Choose | Rankle/Sources/ViewModels/RankingViewModel.swift:54-68 | without a matchup nothing changes. Otherwise the step is exactly the reference `Answer`, and the session stays well-formed |
| Ranking.Run | Rankle/Sources/ViewModels/RankingViewModel.swift:54-68 | answering until done completes the session, with the reference run's state, and changes only the list's items |
| RankingProperties.Completed | Rankle/Sources/ViewModels/RankingViewModel.swift:70-73 | a finished session shows no matchup and holds the reference run's order, under the same identity and name |
| RankingProperties.RankingPermutes | Rankle/Sources/ViewModels/RankingViewModel.swift:13-73 | ranking a list of distinct items completes with a permutation of its items, under the same identity and name |
| RankingProperties.RankingSorts | Rankle/Sources/ViewModels/RankingViewModel.swift:13-73 | answers that follow one fixed strict preference rank the list best-first |
| RankingProperties.RankingAlwaysLeft | Rankle/Sources/ViewModels/RankingViewModel.swift:22-68 | always preferring the candidate reverses the list |
| RankingProperties.RankingStartsFresh | Rankle/Sources/ViewModels/RankingViewModel.swift:13-30 | ranking n > 1 items starts as a fresh candidate over a one-slot range with n - 2 items queued and a final order of n items |
| RankingProperties.RankingMatchups | Rankle/Sources/ViewModels/RankingViewModel.swift:13-68 | ranking n > 1 items shows at most 1 + (n - 2) * ceil(log2 n) matchups, whatever the answers |
| RankingProperties.FourItemsMatchups | Rankle/Tests/RankingTests.swift:5-22 | a state like the start of a four-item ranking (a fresh candidate over one slot, two items queued, four items in all) shows at most five matchups, whatever the answers |
| RankingProperties.FourItemsAlwaysLeft | Rankle/Tests/RankingTests.swift:5-22 | the list D, A, C, B starts in the state the five-matchup bound covers and, answered always left, completes as B, C, A, D, still four items |
| AddItemRanking.CompleteSession | Rankle/Sources/ViewModels/AddItemRankingViewModel.swift:63-65 | completion only sets `isComplete` |
| AddItemRanking.NextInsertion | Rankle/Sources/ViewModels/AddItemRankingViewModel.swift:23-32 | the total is kept. The next item starts with the reported slot cleared, or, with an empty queue, the session completes and keeps the last reported slot |
| AddItemRanking.PromptNextComparison | Rankle/Sources/ViewModels/AddItemRankingViewModel.swift:34-47 | without a candidate nothing changes. With slots left it shows the middle matchup. With an empty range it inserts at `lo` and counts one more processed item; `lo` is reported when that item was the last |
| AddItemRanking.Choose | Rankle/Sources/ViewModels/AddItemRankingViewModel.swift:49-61 | without a matchup nothing changes. Otherwise the step is the reference `Answer`, and a placement counts one item and reports the landing slot if it completes the batch. The total is kept, and the processed count plus the unplaced items always equal it |
| AddItemRanking.Init | Rankle/Sources/ViewModels/AddItemRankingViewModel.swift:15-21 | `totalCount` is the batch size. An empty batch is complete at once, with the list unchanged and no matchup. Into an empty list the first item is placed without a matchup |
| AddItemRanking.Run | Rankle/Sources/ViewModels/AddItemRankingViewModel.swift:49-61 | answering until done completes the session with the reference run's state and the same total |
| AddItemRanking.ChooseAll | Rankle/Sources/ViewModels/AddItemRankingViewModel.swift:49-61 | any sequence of answers keeps the session well-formed and follows the reference steps. Answers given with no matchup shown are ignored |
| AddItemRankingProperties.MatchupShown | Rankle/Sources/ViewModels/AddItemRankingViewModel.swift:45-46 | a shown matchup is the candidate against a different item, placed inside the candidate's range |
| AddItemRankingProperties.CandidatePlacedWithinBits | Rankle/Sources/ViewModels/AddItemRankingViewModel.swift:34-61 | the item being placed is in the updated list after at most `Bits(hi - lo)` answers |
| AddItemRankingProperties.ChooseReportsLast | Rankle/Sources/ViewModels/AddItemRankingViewModel.swift:36-40 | every answer keeps the reported slot holding the most recently placed new item |
| AddItemRankingProperties.RunReportsLast | Rankle/Sources/ViewModels/AddItemRankingViewModel.swift:49-61 | a whole run keeps the reported slot holding the most recently placed new item |
| AddItemRankingProperties.InitReportsLast | Rankle/Sources/ViewModels/AddItemRankingViewModel.swift:15-21 | at the start, the unplaced items are a tail of the batch, and any reported slot holds the most recently placed item |
| AddItemRankingProperties.CompletedReportsLast | Rankle/Sources/ViewModels/AddItemRankingViewModel.swift:63-69 | a completed session reports a slot exactly when the batch was not empty, and the slot holds the batch's last item |
| AddItemRankingProperties.CompletedCounts | Rankle/Sources/ViewModels/AddItemRankingViewModel.swift:23-46 | a completed session shows no matchup and its processed count has reached the total |
| AddItemRankingProperties.SessionPermutes | Rankle/Sources/ViewModels/AddItemRankingViewModel.swift:15-69 | a completed session shows no matchup and has processed all of the batch. The updated list is a permutation of the existing and new items, with the existing ones in their original order |
| AddItemRankingProperties.SessionReportsLast | Rankle/Sources/ViewModels/AddItemRankingViewModel.swift:15-69 | after a whole session, `insertedPosition` is set exactly when the batch was not empty, and names the slot of the batch's last item |
| AddItemRankingProperties.SessionSorts | Rankle/Sources/ViewModels/AddItemRankingViewModel.swift:15-69 | into a best-first list, answers that follow a fixed preference insert the batch so that the list stays best-first |
| AddItemRankingProperties.SessionAlwaysLeft | Rankle/Sources/ViewModels/AddItemRankingViewModel.swift:15-69 | always preferring the new item puts the batch, last item first, ahead of the existing items |
| AddItemRankingProperties.AddItemStartsFresh | Rankle/Sources/ViewModels/AddItemRankingViewModel.swift:15-32 | adding k items to n > 0 ranked ones starts as a fresh candidate over all n slots with k - 1 items queued, in a session whose final order has n + k items |
| AddItemRankingProperties.AddItemMatchups | Rankle/Sources/ViewModels/AddItemRankingViewModel.swift:15-61 | adding k items to n > 0 ranked ones shows at most ceil(log2(n + 1)) + (k - 1) * ceil(log2(n + k)) matchups, and so at most k * ceil(log2(n + k)), whatever the answers |
| Lists.IsWhitespaceOrNewline | Rankle/Sources/ViewModels/ListsViewModel.swift:16 | holds exactly for the scalars of Foundation's `whitespacesAndNewlines`: the space separators, tab, U+000A to U+000D, U+0085, and U+2028 and U+2029 |
| Lists.TrimStart | Rankle/Sources/ViewModels/ListsViewModel.swift:16 | removes a leading run of whitespace and newlines, up to the first other character |
| Lists.TrimEnd | Rankle/Sources/ViewModels/ListsViewModel.swift:16 | removes a trailing run of whitespace and newlines, back to the last other character |
| Lists.Trim | Rankle/Sources/ViewModels/ListsViewModel.swift:16 | `trimmingCharacters(in: .whitespacesAndNewlines)` is no longer than the title and leaves no whitespace or newline at either end |
| Lists.TrimSlice | Rankle/Sources/ViewModels/ListsViewModel.swift:16 | the trimmed title is one run of the title, and only whitespace and newlines are cut from before and after it |
| Lists.TrimEmptyIffBlank | Rankle/Sources/ViewModels/ListsViewModel.swift:16 | trimming leaves an empty string exactly when the title is whitespace and newlines only |
| Lists.KeptItems | Rankle/Sources/ViewModels/ListsViewModel.swift:16-17 | every kept item has a non-blank title. Every non-blank title is kept, as typed, with the identifier drawn for it, and nothing else is kept |
| Lists.KeptItemsAppend | Rankle/Sources/ViewModels/ListsViewModel.swift:16-17 | the filter keeps the order of the titles: the items of two runs of titles are those of each, joined |
| Lists.KeptItemsAll | Rankle/Sources/ViewModels/ListsViewModel.swift:16-17 | when no title is blank, every title becomes an item, in order |
| Lists.KeptItemsNone | Rankle/Sources/ViewModels/ListsViewModel.swift:16-17 | when every title is blank, the new list is empty |
| Lists.CreateList | Rankle/Sources/ViewModels/ListsViewModel.swift:15-22 | appends exactly one list, with the given identifier and name, holding the kept items; the lists already there are untouched |
| Lists.Survivors | Rankle/Sources/ViewModels/ListsViewModel.swift:24-27 | the surviving positions are increasing, in range, and not among the offsets |
| Lists.SurvivorsComplete | Rankle/Sources/ViewModels/ListsViewModel.swift:24-27 | every in-range position that is not an offset survives |
| Lists.DeleteList | Rankle/Sources/ViewModels/ListsViewModel.swift:24-27 | the result is the lists at the surviving positions, in their original order |
| Lists.DeleteNothing | Rankle/Tests/CollaborationsBehaviorTests.swift:132-140 | offsets that name no list delete nothing |
| Lists.DeleteOne | Rankle/Sources/ViewModels/ListsViewModel.swift:24-27 | deleting one in-range offset removes exactly that list |
| Lists.IndexOfId | Rankle/Sources/ViewModels/ListsViewModel.swift:30 | finds the first list with the identifier, and nothing exactly when no list has it |
| Lists.FirstWithIdUnique | Rankle/Sources/ViewModels/ListsViewModel.swift:30 | at most one position is the first with an identifier |
| Lists.EditFirst | Rankle/Sources/ViewModels/ListsViewModel.swift:29-51 | an edit by identifier changes only the first list with that identifier, and nothing when there is none |
| Lists.RenameList | Rankle/Sources/ViewModels/ListsViewModel.swift:29-33 | the first list with the identifier takes the new name; every other list is unchanged |
| Lists.AddItem | Rankle/Sources/ViewModels/ListsViewModel.swift:41-45 | the first list with the identifier gains one item with the title as given, at its end; every other list is unchanged |
| Lists.ReplaceList | Rankle/Sources/ViewModels/ListsViewModel.swift:47-51 | the first list with the updated list's identifier becomes the updated list; every other list is unchanged |
| Lists.EditKeepsIds | Rankle/Sources/ViewModels/ListsViewModel.swift:29-51 | an edit that keeps identifiers keeps every identifier in place |
| Lists.EditsKeepIds | Rankle/Sources/ViewModels/ListsViewModel.swift:29-51 | renaming, adding an item and replacing leave every list's identifier in place |
| Lists.FirstWithIdKept | Rankle/Sources/ViewModels/ListsViewModel.swift:30 | with the identifiers unchanged, the first list with an identifier is unchanged |
| Lists.RenameTwice | Rankle/Sources/ViewModels/ListsViewModel.swift:29-33 | renaming twice is renaming once, to the second name |
| Lists.ReplaceIdempotent | Rankle/Sources/ViewModels/ListsViewModel.swift:47-51 | replacing with the same list twice is replacing once |
| Lists.UnknownIdNoOp | Rankle/Sources/ViewModels/ListsViewModel.swift:30-48 | an identifier no list carries makes rename, add-item and replace leave the lists unchanged |
| Lists.ImportList | Rankle/Sources/ViewModels/ListsViewModel.swift:53-58 | appends exactly one list, with the imported name and items under the fresh identifier |
| Lists.ImportedIsAddressable | Rankle/Tests/SharingTests.swift:94-103 | with an unused fresh identifier, the imported copy is the first list with it, so a later rename reaches only the copy |
| Sharing.DigitChar | Rankle/Sources/Services/SharingService.swift:19 | a digit is written as the character that reads back as it |
| Sharing.Decimal | Rankle/Sources/Services/SharingService.swift:19 | a number is written as a non-empty string of digits with no leading zero, one digit long exactly below ten |
| Sharing.DecimalRoundTrip | Rankle/Sources/Services/SharingService.swift:19 | a written number reads back as itself |
| Sharing.DecimalInjective | Rankle/Sources/Services/SharingService.swift:19 | different numbers are written differently |
| Sharing.LineReadsBack | Rankle/Sources/Services/SharingService.swift:19 | an item line is digits that read back as the one-based position, then ". ", the title, and a newline |
| Sharing.LinesFromAppend | Rankle/Sources/Services/SharingService.swift:18-20 | the lines of two runs of items are those of each, with the second numbered on from the first |
| Sharing.LinesStep | Rankle/Sources/Services/SharingService.swift:18-20 | one more step of the enumeration adds exactly the next item's line |
| Sharing.ClipboardText | Rankle/Sources/Services/SharingService.swift:16-23 | the shared text starts with the header line naming the list and ends with the footer |
| Sharing.GenerateClipboardText | Rankle/Sources/Services/SharingService.swift:16-23 | the text built by the enumerating loop starts with the header, ends with the footer, and equals header + the item lines + footer |
| Sharing.EmptyListText | Rankle/Sources/Services/SharingService.swift:16-23 | an empty list gives the header followed by the footer |
| Sharing.AppendItemText | Rankle/Sources/Services/SharingService.swift:16-23 | appending an item adds exactly its numbered line, just before the footer |
| Sharing.ItemLine | Rankle/Sources/Services/SharingService.swift:18-20 | the item at position i gives the line numbered i + 1: the lines split into those of the items before it and those from it on, and the latter begin with its line, followed by the lines of the items after it |
| Sharing.FirstLineNumbers | Rankle/Tests/SharingTests.swift:58-66 | the first three lines begin "1. ", "2. " and "3. " |
| Sharing.ThreeItemsText | Rankle/Tests/SharingTests.swift:58-66 | a three-item list is shared as the header, "1. ", "2. " and "3. " lines in order, and the footer |
| TierDrop.Dropped | Rankle/Sources/Views/TierListView.swift:298-309 | dropped items take the tier's raw value, or lose their tier on a drop without a tier; every other assignment is kept |
| TierDrop.HandleDrop | Rankle/Sources/Views/TierListView.swift:294-316 | the drop is handled, and `onUpdate` called, exactly when at least one item was dropped. The update keeps the list and assigns as `Dropped` says |
| TierDrop.LastDropWins | Rankle/Sources/Views/TierListView.swift:298-309 | of two drops of the same items only the last counts, so a repeated drop changes nothing |

## Left out

- Persistence: `persist()`, the storage service and CloudKit sync are I/O, so the list operations return the new collection instead.
- `updateColor`, the `color` argument of `createList` and the list colour copied by `importList`: the list record modelled (`Models.swift`) has no colour field.
- Undo, collaboration, aggregation and media: they are outside the ranking and list-editing core.
- Deep links, `copyToClipboard`, and everything else in `SharingService` except `generateClipboardText`: these are encoding and platform calls.
- The SwiftUI views: only `handleDrop` of `TierListView` is modelled. Its callers pass the dropped identifiers and a tier or nil (TierListView.swift:139, 214). The tier is given by its raw value, a string.
- Fresh `UUID()` values are parameters, and their uniqueness is a precondition where it matters (`ImportedIsAddressable`).
- `AddItemRanking.GetUpdatedList` has no contract of its own. Its meaning is stated through `SessionPermutes`, `SessionSorts` and `SessionAlwaysLeft`.
- Swift `Int` overflow is not modelled: counts and indices are unbounded naturals.
- Ranking.StartPairwiseSort: it is public, but the repository only calls it from `init`, so its contract covers a freshly initialised session. Calling it mid-session is not analysed.
- Ranking.Choose, AddItemRanking.Choose: they require all items to be distinct. The source force-unwraps `firstIndex(of:)` and probes by identity, so duplicate items are outside what it handles. Item equality here compares titles scalar by scalar, while Swift's synthesised `==` compares strings up to Unicode canonical equivalence. Two items with the same identifier and canonically equivalent titles that differ in scalars (a precomposed "é" against "e" plus a combining acute accent) are distinct here but equal in Swift; on such a session the source's `firstIndex(of:)` can return an earlier slot than the probe, and the model does not follow it there. Items the app creates carry fresh `UUID()` identifiers, so such a pair needs two items that already share an identifier.
- Lists.DeleteList: offsets past the end are ignored, as the repository's test `testDeleteWithInvalidIndexSet` expects. The standard-library behaviour of `remove(atOffsets:)` on such offsets is not part of this model.
- Lists.IsWhitespaceOrNewline: it works on Unicode scalars, as Dafny's `char` does. The set is Foundation's documented `whitespacesAndNewlines` (category Z, tab, U+000A to U+000D, U+0085); grapheme clustering is not modelled.
- The matchup bounds count the matchups of a run answered by one `pick` function. They are stated over fresh-candidate states (`FreshMatchups`); `RankingMatchups` and `AddItemMatchups` apply them to the start of each session. The per-candidate bound `PlacedWithinBits` holds for any sequence of answers.
