/**
 * The collection of lists kept by the home screen
 * (Rankle/Sources/ViewModels/ListsViewModel.swift): creating, deleting,
 * renaming, extending, replacing and importing lists. Every edit is a pure
 * function from the old collection to the new one; saving the result is not
 * modelled, and the fresh identifiers the source draws with `UUID()` are
 * parameters.
 */
module Lists {
  import opened Wrappers
  import opened Models

  // ---------------------------------------------------------------------------
  // Blank titles
  // ---------------------------------------------------------------------------

  /**
   * Foundation's `whitespacesAndNewlines` character set: the space separators
   * (general category Zs), the line and paragraph separators, the character
   * tabulation, U+000A to U+000D and NEXT LINE.
   */
  predicate IsWhitespaceOrNewline(c: char) {
    || c == ' ' || c == '\U{00A0}' || c == '\U{1680}'
    || ('\U{2000}' <= c <= '\U{200A}') || c == '\U{202F}' || c == '\U{205F}' || c == '\U{3000}'
    || c == '\U{2028}' || c == '\U{2029}'
    || c == '\t' || ('\n' <= c <= '\r') || c == '\U{0085}'
  }

  /** A title made of whitespace and newlines only (the empty title included). */
  predicate Blank(s: string) {
    forall i :: 0 <= i < |s| ==> IsWhitespaceOrNewline(s[i])
  }

  /** Drops leading whitespace and newlines. */
  function TrimStart(s: string): (r: string)
    ensures |r| <= |s| && r == s[|s| - |r|..]
    ensures Blank(s[..|s| - |r|])
    ensures r == [] || !IsWhitespaceOrNewline(r[0])
  {
    if s == [] || !IsWhitespaceOrNewline(s[0]) then s
    else
      var r := TrimStart(s[1..]);
      assert s[..|s| - |r|] == [s[0]] + s[1..][..|s| - 1 - |r|];
      r
  }

  /** Drops trailing whitespace and newlines. */
  function TrimEnd(s: string): (r: string)
    ensures |r| <= |s| && r == s[..|r|]
    ensures Blank(s[|r|..])
    ensures r == [] || !IsWhitespaceOrNewline(r[|r| - 1])
  {
    if s == [] || !IsWhitespaceOrNewline(s[|s| - 1]) then s
    else
      var r := TrimEnd(s[..|s| - 1]);
      assert s[|r|..] == s[..|s| - 1][|r|..] + [s[|s| - 1]];
      r
  }

  /** `trimmingCharacters(in: .whitespacesAndNewlines)`: no whitespace is left at either end. */
  function Trim(s: string): (r: string)
    ensures |r| <= |s|
    ensures r == [] || (!IsWhitespaceOrNewline(r[0]) && !IsWhitespaceOrNewline(r[|r| - 1]))
  {
    var t := TrimStart(s);
    var r := TrimEnd(t);
    assert r != [] ==> r[0] == t[0];
    r
  }

  /** `r` is the run of `s` starting at `a`, with only blank text before and after it. */
  predicate CutFrom(s: string, a: nat, r: string) {
    && a + |r| <= |s| && r == s[a..a + |r|]
    && Blank(s[..a]) && Blank(s[a + |r|..])
  }

  /** Trimming keeps one run of `s` and drops only blank text on either side of it. */
  lemma TrimSlice(s: string)
    ensures CutFrom(s, |s| - |TrimStart(s)|, Trim(s))
  {
    var t := TrimStart(s);
    var r := TrimEnd(t);
    assert r == Trim(s);
    BlankAround(s, t, r);
  }

  /** A run `r` cut from `s` with blank text before it and blank text after it. */
  lemma BlankAround(s: string, t: string, r: string)
    requires |t| <= |s| && t == s[|s| - |t|..] && Blank(s[..|s| - |t|])
    requires |r| <= |t| && r == t[..|r|] && Blank(t[|r|..])
    ensures CutFrom(s, |s| - |t|, r)
  {
    PrefixOfSuffix(s, t, r);
  }

  /** A prefix `r` of a suffix `t` of `s` is the slice of `s` it sits on, and what follows it in `t` follows it in `s`. */
  lemma PrefixOfSuffix(s: string, t: string, r: string)
    requires |t| <= |s| && t == s[|s| - |t|..] && |r| <= |t| && r == t[..|r|]
    ensures var a := |s| - |t|;
            r == s[a..a + |r|] && s[a + |r|..] == t[|r|..]
  {
  }

  /** Trimming leaves nothing exactly when the title is blank. */
  lemma TrimEmptyIffBlank(s: string)
    ensures Trim(s) == [] <==> Blank(s)
  {
    var t := TrimStart(s);
    if Trim(s) == [] {
      assert Blank(t) by {
        assert t[0..] == t;
      }
      assert s == s[..|s| - |t|] + t;
    }
  }

  // ---------------------------------------------------------------------------
  // Creating lists
  // ---------------------------------------------------------------------------

  /**
   * The items a new list starts with: one per title that is not blank, in
   * the order given, with the title kept as typed (untrimmed). `ids[i]` is
   * the identifier drawn for `titles[i]`.
   */
  function KeptItems(titles: seq<string>, ids: seq<Uuid>): (r: seq<RankleItem>)
    requires |ids| == |titles|
    ensures |r| <= |titles|
    ensures forall k :: 0 <= k < |r| ==> !Blank(r[k].title)
    ensures forall i :: 0 <= i < |titles| && !Blank(titles[i]) ==> RankleItem(ids[i], titles[i]) in r
    ensures forall x :: x in r ==> exists i :: 0 <= i < |titles| && x == RankleItem(ids[i], titles[i])
  {
    if titles == [] then []
    else
      var rest := KeptItems(titles[1..], ids[1..]);
      var r := (if Blank(titles[0]) then [] else [RankleItem(ids[0], titles[0])]) + rest;
      assert forall i :: 1 <= i < |titles| ==> titles[i] == titles[1..][i - 1] && ids[i] == ids[1..][i - 1];
      assert forall x :: x in rest ==> exists i :: 1 <= i < |titles| && x == RankleItem(ids[i], titles[i]) by {
        forall x | x in rest
          ensures exists i :: 1 <= i < |titles| && x == RankleItem(ids[i], titles[i])
        {
          var j :| 0 <= j < |titles[1..]| && x == RankleItem(ids[1..][j], titles[1..][j]);
          assert x == RankleItem(ids[j + 1], titles[j + 1]);
        }
      }
      r
  }

  /** Items are kept in order: the items of two runs of titles are the items of each, joined. */
  lemma {:induction false} KeptItemsAppend(t1: seq<string>, i1: seq<Uuid>, t2: seq<string>, i2: seq<Uuid>)
    requires |i1| == |t1| && |i2| == |t2|
    ensures KeptItems(t1 + t2, i1 + i2) == KeptItems(t1, i1) + KeptItems(t2, i2)
    decreases |t1|
  {
    if t1 != [] {
      assert (t1 + t2)[0] == t1[0] && (i1 + i2)[0] == i1[0];
      assert (t1 + t2)[1..] == t1[1..] + t2 && (i1 + i2)[1..] == i1[1..] + i2;
      KeptItemsAppend(t1[1..], i1[1..], t2, i2);
      var head := if Blank(t1[0]) then [] else [RankleItem(i1[0], t1[0])];
      assert KeptItems(t1 + t2, i1 + i2) == head + KeptItems(t1[1..] + t2, i1[1..] + i2);
      assert KeptItems(t1, i1) == head + KeptItems(t1[1..], i1[1..]);
    } else {
      assert t1 + t2 == t2 && i1 + i2 == i2;
    }
  }

  /** When no title is blank every title becomes an item, in order and untrimmed. */
  lemma {:induction false} KeptItemsAll(titles: seq<string>, ids: seq<Uuid>)
    requires |ids| == |titles|
    requires forall i :: 0 <= i < |titles| ==> !Blank(titles[i])
    ensures |KeptItems(titles, ids)| == |titles|
    ensures forall i :: 0 <= i < |titles| ==> KeptItems(titles, ids)[i] == RankleItem(ids[i], titles[i])
  {
    if titles != [] {
      KeptItemsAll(titles[1..], ids[1..]);
    }
  }

  /** When every title is blank the new list is empty. */
  lemma {:induction false} KeptItemsNone(titles: seq<string>, ids: seq<Uuid>)
    requires |ids| == |titles|
    requires forall i :: 0 <= i < |titles| ==> Blank(titles[i])
    ensures KeptItems(titles, ids) == []
  {
    if titles != [] {
      KeptItemsNone(titles[1..], ids[1..]);
    }
  }

  /**
   * `createList`: appends one list named `name` holding the kept items; the
   * lists already there stay as they were.
   */
  function CreateList(lists: seq<RankleList>, name: string, titles: seq<string>, listId: Uuid, itemIds: seq<Uuid>): (r: seq<RankleList>)
    requires |itemIds| == |titles|
    ensures |r| == |lists| + 1 && r[..|lists|] == lists
    ensures r[|lists|].id == listId && r[|lists|].name == name
    ensures r[|lists|].items == KeptItems(titles, itemIds)
    ensures forall k :: 0 <= k < |r[|lists|].items| ==> !Blank(r[|lists|].items[k].title)
    ensures forall i :: 0 <= i < |titles| && !Blank(titles[i]) ==> RankleItem(itemIds[i], titles[i]) in r[|lists|].items
  {
    lists + [RankleList(listId, name, KeptItems(titles, itemIds))]
  }

  // ---------------------------------------------------------------------------
  // Deleting lists
  // ---------------------------------------------------------------------------

  /** The positions below `n` that are not in `offsets`, in increasing order. */
  function Survivors(n: nat, offsets: set<nat>): (ks: seq<nat>)
    ensures forall k :: 0 <= k < |ks| ==> ks[k] < n && ks[k] !in offsets
    ensures forall a, b :: 0 <= a < b < |ks| ==> ks[a] < ks[b]
  {
    if n == 0 then []
    else
      var earlier := Survivors(n - 1, offsets);
      if n - 1 in offsets then earlier else earlier + [n - 1]
  }

  /** Every position below `n` that is not an offset survives. */
  lemma {:induction false} SurvivorsComplete(n: nat, offsets: set<nat>, i: nat)
    requires i < n && i !in offsets
    ensures i in Survivors(n, offsets)
  {
    if i < n - 1 {
      SurvivorsComplete(n - 1, offsets, i);
    }
  }

  /**
   * `deleteList(at:)`: removes the lists at the offsets and keeps the others
   * in order. An offset past the end removes nothing.
   */
  function DeleteList(lists: seq<RankleList>, offsets: set<nat>): (r: seq<RankleList>)
    ensures var ks := Survivors(|lists|, offsets);
            && |r| == |ks|
            && forall k :: 0 <= k < |r| ==> ks[k] < |lists| && r[k] == lists[ks[k]]
  {
    if lists == [] then []
    else
      var n := |lists| - 1;
      DeleteList(lists[..n], offsets) + (if n in offsets then [] else [lists[n]])
  }

  /** Offsets that name no list delete nothing. */
  lemma {:induction false} DeleteNothing(lists: seq<RankleList>, offsets: set<nat>)
    requires forall i :: i in offsets ==> i >= |lists|
    ensures DeleteList(lists, offsets) == lists
  {
    if lists != [] {
      var n := |lists| - 1;
      assert n !in offsets;
      assert DeleteList(lists, offsets) == DeleteList(lists[..n], offsets) + [lists[n]];
      DeleteNothing(lists[..n], offsets);
      assert lists == lists[..n] + [lists[n]];
    }
  }

  /** Deleting one list in range removes exactly that list. */
  lemma {:induction false} DeleteOne(lists: seq<RankleList>, i: nat)
    requires i < |lists|
    ensures DeleteList(lists, {i}) == lists[..i] + lists[i + 1..]
  {
    var n := |lists| - 1;
    if n == i {
      assert DeleteList(lists, {i}) == DeleteList(lists[..n], {i});
      DeleteNothing(lists[..n], {i});
    } else {
      assert DeleteList(lists, {i}) == DeleteList(lists[..n], {i}) + [lists[n]];
      DeleteOne(lists[..n], i);
      SpliceLast(lists, i);
    }
  }

  /** Cutting out position `i` before the last one commutes with dropping the last one. */
  lemma SpliceLast(lists: seq<RankleList>, i: nat)
    requires i < |lists| - 1
    ensures var n := |lists| - 1;
            lists[..i] + lists[i + 1..] == lists[..n][..i] + lists[..n][i + 1..] + [lists[n]]
  {
    var n := |lists| - 1;
    assert lists[..n][..i] == lists[..i];
    assert lists[i + 1..] == lists[..n][i + 1..] + [lists[n]];
  }

  // ---------------------------------------------------------------------------
  // Edits by identifier
  // ---------------------------------------------------------------------------

  /** `j` is the first position holding a list with identifier `id`: Swift's `firstIndex(where:)`. */
  predicate FirstWithId(lists: seq<RankleList>, j: int, id: Uuid) {
    && 0 <= j < |lists| && lists[j].id == id
    && forall k :: 0 <= k < j ==> lists[k].id != id
  }

  /** `lists.firstIndex(where: { $0.id == id })`. */
  function IndexOfId(lists: seq<RankleList>, id: Uuid): (r: Option<nat>)
    ensures r.None? <==> forall j :: 0 <= j < |lists| ==> lists[j].id != id
    ensures r.Some? ==> FirstWithId(lists, r.value, id)
  {
    if lists == [] then None
    else if lists[0].id == id then Some(0)
    else match IndexOfId(lists[1..], id)
      case None => None
      case Some(j) => Some(j + 1)
  }

  /** At most one position is the first with a given identifier. */
  lemma FirstWithIdUnique(lists: seq<RankleList>, j: int, k: int, id: Uuid)
    requires FirstWithId(lists, j, id) && FirstWithId(lists, k, id)
    ensures j == k
  {
  }

  /** Applies `edit` to the first list with identifier `id`; without one, nothing changes. */
  function EditFirst(lists: seq<RankleList>, id: Uuid, edit: RankleList -> RankleList): (r: seq<RankleList>)
    ensures |r| == |lists|
    ensures forall j :: 0 <= j < |r| ==> r[j] == if FirstWithId(lists, j, id) then edit(lists[j]) else lists[j]
  {
    match IndexOfId(lists, id)
    case None => lists
    case Some(j) => lists[j := edit(lists[j])]
  }

  /** `renameList`: the first list with the identifier takes the new name; every other list is untouched. */
  function RenameList(lists: seq<RankleList>, id: Uuid, newName: string): (r: seq<RankleList>)
    ensures |r| == |lists|
    ensures forall j :: 0 <= j < |r| ==>
              r[j] == if FirstWithId(lists, j, id) then lists[j].(name := newName) else lists[j]
  {
    EditFirst(lists, id, (l: RankleList) => l.(name := newName))
  }

  /**
   * `addItem`: the first list with the identifier gains an item with the
   * given title (taken as typed) at its end; every other list is untouched.
   */
  function AddItem(lists: seq<RankleList>, title: string, id: Uuid, itemId: Uuid): (r: seq<RankleList>)
    ensures |r| == |lists|
    ensures forall j :: 0 <= j < |r| ==>
              r[j] == if FirstWithId(lists, j, id) then lists[j].(items := lists[j].items + [RankleItem(itemId, title)]) else lists[j]
  {
    EditFirst(lists, id, (l: RankleList) => l.(items := l.items + [RankleItem(itemId, title)]))
  }

  /** `replaceList`: the first list with the updated list's identifier becomes it; every other list is untouched. */
  function ReplaceList(lists: seq<RankleList>, updated: RankleList): (r: seq<RankleList>)
    ensures |r| == |lists|
    ensures forall j :: 0 <= j < |r| ==> r[j] == if FirstWithId(lists, j, updated.id) then updated else lists[j]
  {
    EditFirst(lists, updated.id, (_: RankleList) => updated)
  }

  /** Identifiers of the lists, position by position. */
  function Ids(lists: seq<RankleList>): (r: seq<Uuid>)
    ensures |r| == |lists| && forall j :: 0 <= j < |r| ==> r[j] == lists[j].id
  {
    seq(|lists|, j requires 0 <= j < |lists| => lists[j].id)
  }

  /** An edit that keeps identifiers keeps every list's identifier. */
  lemma EditKeepsIds(lists: seq<RankleList>, id: Uuid, edit: RankleList -> RankleList)
    requires forall l :: edit(l).id == l.id
    ensures Ids(EditFirst(lists, id, edit)) == Ids(lists)
  {
  }

  /** Renaming, adding an item and replacing (by the list's own identifier) leave every identifier in place. */
  lemma EditsKeepIds(lists: seq<RankleList>, id: Uuid, name: string, title: string, itemId: Uuid, updated: RankleList)
    ensures Ids(RenameList(lists, id, name)) == Ids(lists)
    ensures Ids(AddItem(lists, title, id, itemId)) == Ids(lists)
    ensures Ids(ReplaceList(lists, updated)) == Ids(lists)
  {
    var renamed := RenameList(lists, id, name);
    var added := AddItem(lists, title, id, itemId);
    var replaced := ReplaceList(lists, updated);
    assert forall j :: 0 <= j < |lists| ==> renamed[j].id == lists[j].id && added[j].id == lists[j].id;
    assert forall j :: 0 <= j < |lists| ==> replaced[j].id == lists[j].id;
  }

  /** The first position with an identifier is the same after an edit that keeps identifiers. */
  lemma FirstWithIdKept(lists: seq<RankleList>, r: seq<RankleList>, j: int, id: Uuid)
    requires Ids(r) == Ids(lists)
    ensures FirstWithId(r, j, id) <==> FirstWithId(lists, j, id)
  {
    assert |r| == |Ids(r)|;
    assert forall k :: 0 <= k < |r| ==> r[k].id == Ids(r)[k] == lists[k].id;
  }

  /** Renaming twice is renaming once, to the second name. */
  lemma RenameTwice(lists: seq<RankleList>, id: Uuid, first: string, second: string)
    ensures RenameList(RenameList(lists, id, first), id, second) == RenameList(lists, id, second)
  {
    var once := RenameList(lists, id, first);
    EditsKeepIds(lists, id, first, first, 0, RankleList(id, first, []));
    forall j | 0 <= j < |lists|
      ensures RenameList(once, id, second)[j] == RenameList(lists, id, second)[j]
    {
      FirstWithIdKept(lists, once, j, id);
    }
  }

  /** Replacing with the same list twice is replacing once. */
  lemma ReplaceIdempotent(lists: seq<RankleList>, updated: RankleList)
    ensures ReplaceList(ReplaceList(lists, updated), updated) == ReplaceList(lists, updated)
  {
    var once := ReplaceList(lists, updated);
    EditsKeepIds(lists, updated.id, "", "", 0, updated);
    forall j | 0 <= j < |lists|
      ensures ReplaceList(once, updated)[j] == once[j]
    {
      FirstWithIdKept(lists, once, j, updated.id);
    }
  }

  /** An identifier no list carries makes every edit by identifier a no-op. */
  lemma UnknownIdNoOp(lists: seq<RankleList>, id: Uuid, name: string, title: string, itemId: Uuid, updated: RankleList)
    requires forall j :: 0 <= j < |lists| ==> lists[j].id != id
    requires updated.id == id
    ensures RenameList(lists, id, name) == lists
    ensures AddItem(lists, title, id, itemId) == lists
    ensures ReplaceList(lists, updated) == lists
  {
  }

  // ---------------------------------------------------------------------------
  // Importing lists
  // ---------------------------------------------------------------------------

  /**
   * `importList`: appends a copy of the list with the same name and items
   * under a freshly drawn identifier.
   */
  function ImportList(lists: seq<RankleList>, list: RankleList, freshId: Uuid): (r: seq<RankleList>)
    ensures |r| == |lists| + 1 && r[..|lists|] == lists
    ensures r[|lists|].name == list.name && r[|lists|].items == list.items
    ensures r[|lists|].id == freshId
  {
    lists + [RankleList(freshId, list.name, list.items)]
  }

  /**
   * An identifier not used before makes the imported copy the first list
   * with that identifier, so later edits by identifier reach the copy and not
   * the lists already there.
   */
  lemma ImportedIsAddressable(lists: seq<RankleList>, list: RankleList, freshId: Uuid, newName: string)
    requires forall j :: 0 <= j < |lists| ==> lists[j].id != freshId
    ensures FirstWithId(ImportList(lists, list, freshId), |lists|, freshId)
    ensures var r := ImportList(lists, list, freshId);
            RenameList(r, freshId, newName) == lists + [RankleList(freshId, newName, list.items)]
  {
    var r := ImportList(lists, list, freshId);
    assert forall k :: 0 <= k < |lists| ==> r[k] == lists[k];
  }
}
