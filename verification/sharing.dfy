/**
 * The plain-text form of a list that is put on the clipboard for people
 * without the app (`generateClipboardText` in
 * Rankle/Sources/Services/SharingService.swift): a header with the list's
 * name, one numbered line per item in list order, and a footer.
 */
module Sharing {
  import opened Models

  // ---------------------------------------------------------------------------
  // Decimal numerals, as Swift's string interpolation writes a non-negative Int
  // ---------------------------------------------------------------------------

  predicate IsDigit(c: char) {
    '0' <= c <= '9'
  }

  function DigitChar(d: nat): (c: char)
    requires d < 10
    ensures IsDigit(c) && DigitValue(c) == d
  {
    (48 + d) as char
  }

  function DigitValue(c: char): nat
    requires IsDigit(c)
  {
    c as int - 48
  }

  /** The decimal numeral of `n`: digits only, and no leading zero. */
  function Decimal(n: nat): (r: string)
    ensures r != [] && forall i :: 0 <= i < |r| ==> IsDigit(r[i])
    ensures |r| > 1 ==> r[0] != '0'
    ensures n < 10 <==> |r| == 1
  {
    if n < 10 then [DigitChar(n)] else Decimal(n / 10) + [DigitChar(n % 10)]
  }

  /** Reads a string of digits as a number. */
  function ParseDecimal(s: string): nat
    requires forall i :: 0 <= i < |s| ==> IsDigit(s[i])
  {
    if s == [] then 0 else ParseDecimal(s[..|s| - 1]) * 10 + DigitValue(s[|s| - 1])
  }

  /** A numeral reads back as the number it was written from. */
  lemma {:induction false} DecimalRoundTrip(n: nat)
    ensures ParseDecimal(Decimal(n)) == n
  {
    var r := Decimal(n);
    if n >= 10 {
      DecimalRoundTrip(n / 10);
      assert r[..|r| - 1] == Decimal(n / 10);
    } else {
      assert r[..0] == [];
    }
  }

  /** Different numbers are written differently. */
  lemma DecimalInjective(m: nat, n: nat)
    requires Decimal(m) == Decimal(n)
    ensures m == n
  {
    DecimalRoundTrip(m);
    DecimalRoundTrip(n);
  }

  // ---------------------------------------------------------------------------
  // The clipboard text
  // ---------------------------------------------------------------------------

  /** The header: a bar-chart emoji, a space, the name and a blank line. */
  function Header(name: string): string {
    "\U{1F4CA} " + name + "\n\n"
  }

  /** The attribution that closes the text, after a blank line. */
  const Footer: string := "\nShared from Rankle"

  /** The line for the item at zero-based `index`: its one-based number, a dot, a space and the title. */
  function Line(index: nat, title: string): string {
    Decimal(index + 1) + ". " + title + "\n"
  }

  /**
   * A line reads back: the digits before the first ". " give the item's
   * one-based number, and the title follows up to the closing newline.
   */
  lemma LineReadsBack(index: nat, title: string)
    ensures var r := Line(index, title); var d := |Decimal(index + 1)|;
            && d + 3 + |title| == |r|
            && (forall k :: 0 <= k < d ==> IsDigit(r[k]))
            && ParseDecimal(r[..d]) == index + 1
            && r[d..d + 2] == ". " && r[d + 2..|r| - 1] == title && r[|r| - 1] == '\n'
  {
    var n := Decimal(index + 1);
    var rest := ". " + title + "\n";
    assert Line(index, title) == n + rest;
    DecimalRoundTrip(index + 1);
    SplitAt(n, rest);
    assert rest[..2] == ". " && rest[2..|rest| - 1] == title && rest[|rest| - 1] == '\n';
  }

  /** The two parts of a concatenation are its slices at the seam. */
  lemma SplitAt(a: string, b: string)
    ensures var r := a + b;
            && r[..|a|] == a
            && forall i, j :: 0 <= i <= j <= |b| ==> r[|a| + i..|a| + j] == b[i..j]
  {
  }

  /** The lines for `items`, numbered from `start`. */
  function LinesFrom(items: seq<RankleItem>, start: nat): string
    decreases |items|
  {
    if items == [] then [] else Line(start, items[0].title) + LinesFrom(items[1..], start + 1)
  }

  /** Reference text: header, one line per item in order, footer. */
  function ClipboardText(list: RankleList): (r: string)
    ensures |r| >= |Header(list.name)| + |Footer|
    ensures r[..|Header(list.name)|] == Header(list.name) && r[|r| - |Footer|..] == Footer
  {
    var h, lines := Header(list.name), LinesFrom(list.items, 0);
    assert (h + lines + Footer)[..|h|] == h;
    assert (h + lines + Footer)[|h + lines|..] == Footer;
    h + lines + Footer
  }

  /** The lines of two runs of items are the lines of each, the second numbered on. */
  lemma {:induction false} LinesFromAppend(a: seq<RankleItem>, b: seq<RankleItem>, start: nat)
    ensures LinesFrom(a + b, start) == LinesFrom(a, start) + LinesFrom(b, start + |a|)
    decreases |a|
  {
    if a == [] {
      assert a + b == b;
    } else {
      assert (a + b)[0] == a[0] && (a + b)[1..] == a[1..] + b;
      LinesFromAppend(a[1..], b, start + 1);
    }
  }

  /**
   * `generateClipboardText(for:)`: starts from the header, appends one line
   * per item while enumerating the items, and ends with the footer.
   */
  method GenerateClipboardText(list: RankleList) returns (text: string)
    ensures text == ClipboardText(list)
    ensures text[..|Header(list.name)|] == Header(list.name)
    ensures text[|text| - |Footer|..] == Footer
  {
    text := Header(list.name);
    var index := 0;
    while index < |list.items|
      invariant index <= |list.items|
      invariant text == Header(list.name) + LinesFrom(list.items[..index], 0)
    {
      LinesStep(list.items, index);
      text := text + Line(index, list.items[index].title);
      index := index + 1;
    }
    assert list.items[..index] == list.items;
    text := text + Footer;
  }

  /** The lines of the first `index + 1` items are those of the first `index` and then the next item's line. */
  lemma LinesStep(items: seq<RankleItem>, index: nat)
    requires index < |items|
    ensures LinesFrom(items[..index + 1], 0) == LinesFrom(items[..index], 0) + Line(index, items[index].title)
  {
    LinesFromAppend(items[..index], [items[index]], 0);
    assert items[..index + 1] == items[..index] + [items[index]];
    assert LinesFrom([items[index]], index) == Line(index, items[index].title) + LinesFrom([], index + 1);
  }

  /** An empty list is shared as the header followed by the footer. */
  lemma EmptyListText(list: RankleList)
    requires list.items == []
    ensures ClipboardText(list) == Header(list.name) + Footer
  {
  }

  /** Appending an item to the list adds exactly its line, just before the footer. */
  lemma AppendItemText(list: RankleList, item: RankleItem)
    ensures ClipboardText(list.(items := list.items + [item]))
            == Header(list.name) + (LinesFrom(list.items, 0) + Line(|list.items|, item.title)) + Footer
  {
    LinesFromAppend(list.items, [item], 0);
    assert LinesFrom([item], |list.items|) == Line(|list.items|, item.title) + [];
  }


  /**
   * The item at zero-based `i` appears as the line numbered `i + 1`, after
   * the lines of the items before it and before those of the items after it.
   */
  lemma ItemLine(items: seq<RankleItem>, i: nat)
    requires i < |items|
    ensures LinesFrom(items, 0) == LinesFrom(items[..i], 0) + LinesFrom(items[i..], i)
    ensures LinesFrom(items[i..], i) == Line(i, items[i].title) + LinesFrom(items[i + 1..], i + 1)
  {
    assert items == items[..i] + items[i..];
    LinesFromAppend(items[..i], items[i..], 0);
    assert items[i..][0] == items[i] && items[i..][1..] == items[i + 1..];
  }

  /** The first lines are numbered "1. ", "2. " and "3. ". */
  lemma FirstLineNumbers(title: string)
    ensures Line(0, title) == "1. " + title + "\n"
    ensures Line(1, title) == "2. " + title + "\n"
    ensures Line(2, title) == "3. " + title + "\n"
  {
    assert Decimal(1) == "1" && Decimal(2) == "2" && Decimal(3) == "3";
    assert "1" + ". " == "1. " && "2" + ". " == "2. " && "3" + ". " == "3. ";
  }

  /** A list of three items is shared as the header, their three numbered lines in order, and the footer. */
  lemma ThreeItemsText(name: string, x: RankleItem, y: RankleItem, z: RankleItem)
    ensures ClipboardText(RankleList(0, name, [x, y, z]))
            == Header(name) + ("1. " + x.title + "\n") + ("2. " + y.title + "\n") + ("3. " + z.title + "\n") + Footer
  {
    var items := [x, y, z];
    FirstLineNumbers(x.title);
    FirstLineNumbers(y.title);
    FirstLineNumbers(z.title);
    assert items[1..] == [y, z] && items[1..][1..] == [z] && items[1..][1..][1..] == [];
    assert LinesFrom(items[1..][1..], 2) == Line(2, z.title) + [];
    assert LinesFrom(items[1..], 1) == Line(1, y.title) + LinesFrom(items[1..][1..], 2);
    assert LinesFrom(items, 0) == Line(0, x.title) + LinesFrom(items[1..], 1);
  }
}
