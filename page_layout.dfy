/**
 * Reconstruction of one page's text from its positioned text items
 * (src/mastra/tools/pdf-ingest.ts:47-111): items already in reading order are
 * grouped into lines by their baseline y, each line is joined left to right
 * with a space wherever the horizontal gap says a space was there, and every
 * line is followed by a newline.
 */
module PageLayout {
  import opened Wrappers
  import opened Strings

  /** A text item: its string, its origin (x, y) and its rendered width. */
  datatype TextItem = TextItem(str: string, x: real, y: real, width: real)

  /** Two baselines closer than this belong to the same line. */
  const LineTolerance: real := 5.0
  /** A horizontal gap wider than this stands for a space. */
  const SpaceThreshold: real := 1.0

  function Abs(r: real): real
  {
    if r < 0.0 then -r else r
  }

  predicate SameLine(anchorY: real, y: real)
  {
    Abs(y - anchorY) < LineTolerance
  }

  // ---------------------------------------------------------------- the sort comparator

  /**
   * The comparator the page items are sorted with: by x within the line
   * tolerance, otherwise top of the page first. Negative means `a` goes first.
   */
  function CompareItems(a: TextItem, b: TextItem): real
  {
    if Abs(a.y - b.y) < LineTolerance then a.x - b.x else b.y - a.y
  }

  lemma CompareAntisymmetric(a: TextItem, b: TextItem)
    ensures CompareItems(a, b) == -CompareItems(b, a)
  {
  }

  /**
   * The comparator is not transitive: three items 4 units apart in y, left to
   * right, each ordered before the next, while the last is ordered before the
   * first. So the sorted order is not determined by the comparator alone.
   */
  lemma CompareHasCycle()
    ensures var a, b, c := TextItem("a", 0.0, 0.0, 1.0), TextItem("b", 1.0, 4.0, 1.0), TextItem("c", 2.0, 8.0, 1.0);
            CompareItems(a, b) < 0.0 && CompareItems(b, c) < 0.0 && CompareItems(c, a) < 0.0
  {
  }

  // ---------------------------------------------------------------- grouping into lines

  /** The items of the lines, line after line. */
  function Flatten(lines: seq<seq<TextItem>>): seq<TextItem>
  {
    if lines == [] then [] else Flatten(lines[..|lines| - 1]) + lines[|lines| - 1]
  }

  /** The last item of a non-empty line. */
  function LastItem(line: seq<TextItem>): TextItem
    requires line != []
  {
    line[|line| - 1]
  }

  predicate NonEmptyLines(lines: seq<seq<TextItem>>)
  {
    forall m :: 0 <= m < |lines| ==> lines[m] != []
  }

  /** Inside a line, each item's y is within the tolerance of the previous item's y. */
  predicate ChainedWithin(lines: seq<seq<TextItem>>)
  {
    forall m, k :: 0 <= m < |lines| && 0 < k < |lines[m]| ==> SameLine(lines[m][k - 1].y, lines[m][k].y)
  }

  /** Each line's first item is not within the tolerance of the last item of the line before. */
  predicate BrokenAcross(lines: seq<seq<TextItem>>)
    requires NonEmptyLines(lines)
  {
    forall m :: 0 < m < |lines| ==> !SameLine(LastItem(lines[m - 1]).y, lines[m][0].y)
  }

  /**
   * `lines` cuts `items` into consecutive non-empty lines, keeping the order,
   * and a new line starts exactly where an item's y is not within the
   * tolerance of the previous item's y.
   */
  predicate IsLineGrouping(items: seq<TextItem>, lines: seq<seq<TextItem>>)
  {
    && Flatten(lines) == items
    && NonEmptyLines(lines)
    && ChainedWithin(lines)
    && BrokenAcross(lines)
  }

  /**
   * Reference definition of the grouping, one item at a time: the item joins
   * the last line when its y is within the tolerance of the previous item's y
   * (the anchor moves with every item), and opens a new line otherwise.
   */
  function Lines(items: seq<TextItem>): seq<seq<TextItem>>
    decreases |items|
  {
    if items == [] then []
    else
      var n := |items|;
      var prev := Lines(items[..n - 1]);
      if n > 1 && prev != [] && SameLine(items[n - 2].y, items[n - 1].y)
      then prev[..|prev| - 1] + [prev[|prev| - 1] + [items[n - 1]]]
      else prev + [[items[n - 1]]]
  }

  lemma FlattenSnoc(lines: seq<seq<TextItem>>, line: seq<TextItem>)
    ensures Flatten(lines + [line]) == Flatten(lines) + line
  {
    assert (lines + [line])[..|lines|] == lines;
  }

  lemma FlattenLast(lines: seq<seq<TextItem>>)
    requires lines != [] && NonEmptyLines(lines)
    ensures Flatten(lines) != [] && Flatten(lines)[|Flatten(lines)| - 1] == LastItem(lines[|lines| - 1])
  {
  }

  /** Extending the last line keeps each line chained within the tolerance. */
  lemma ExtendChained(prev: seq<seq<TextItem>>, item: TextItem)
    requires prev != [] && NonEmptyLines(prev) && ChainedWithin(prev)
    requires SameLine(LastItem(prev[|prev| - 1]).y, item.y)
    ensures ChainedWithin(prev[..|prev| - 1] + [prev[|prev| - 1] + [item]])
  {
    var p := |prev|;
    var last := prev[p - 1];
    var lines: seq<seq<TextItem>> := prev[..p - 1] + [last + [item]];
    forall m, k | 0 <= m < |lines| && 0 < k < |lines[m]|
      ensures SameLine(lines[m][k - 1].y, lines[m][k].y)
    {
      if m < p - 1 {
        assert lines[m] == prev[m];
      } else if k < |last| {
        assert lines[m][k - 1] == last[k - 1] && lines[m][k] == last[k];
      }
    }
  }

  /** Extending the last line keeps the breaks between lines where they were. */
  lemma ExtendBroken(prev: seq<seq<TextItem>>, item: TextItem)
    requires prev != [] && NonEmptyLines(prev) && BrokenAcross(prev)
    ensures NonEmptyLines(prev[..|prev| - 1] + [prev[|prev| - 1] + [item]])
    ensures BrokenAcross(prev[..|prev| - 1] + [prev[|prev| - 1] + [item]])
  {
    var p := |prev|;
    var lines: seq<seq<TextItem>> := prev[..p - 1] + [prev[p - 1] + [item]];
    assert NonEmptyLines(lines);
    forall m | 0 < m < |lines|
      ensures !SameLine(LastItem(lines[m - 1]).y, lines[m][0].y)
    {
      assert lines[m - 1] == prev[m - 1];
      assert lines[m][0] == prev[m][0];
    }
  }

  /** An item within the tolerance of the previous one extends the last line. */
  lemma ExtendLastLine(init: seq<TextItem>, prev: seq<seq<TextItem>>, item: TextItem)
    requires IsLineGrouping(init, prev) && prev != []
    requires SameLine(LastItem(prev[|prev| - 1]).y, item.y)
    ensures IsLineGrouping(init + [item], prev[..|prev| - 1] + [prev[|prev| - 1] + [item]])
  {
    var p := |prev|;
    var last := prev[p - 1];
    assert prev == prev[..p - 1] + [last];
    FlattenSnoc(prev[..p - 1], last);
    FlattenSnoc(prev[..p - 1], last + [item]);
    ExtendChained(prev, item);
    ExtendBroken(prev, item);
  }

  /** A new one-item line keeps each line chained within the tolerance. */
  lemma OpenChained(prev: seq<seq<TextItem>>, item: TextItem)
    requires ChainedWithin(prev)
    ensures ChainedWithin(prev + [[item]])
  {
    var lines: seq<seq<TextItem>> := prev + [[item]];
    forall m, k | 0 <= m < |lines| && 0 < k < |lines[m]|
      ensures SameLine(lines[m][k - 1].y, lines[m][k].y)
    {
      assert m < |prev|;
      assert lines[m] == prev[m];
    }
  }

  /** A new one-item line beyond the tolerance of the previous item is a break. */
  lemma OpenBroken(prev: seq<seq<TextItem>>, item: TextItem)
    requires NonEmptyLines(prev) && BrokenAcross(prev)
    requires prev != [] ==> !SameLine(LastItem(prev[|prev| - 1]).y, item.y)
    ensures NonEmptyLines(prev + [[item]])
    ensures BrokenAcross(prev + [[item]])
  {
    var lines: seq<seq<TextItem>> := prev + [[item]];
    assert NonEmptyLines(lines);
    forall m | 0 < m < |lines|
      ensures !SameLine(LastItem(lines[m - 1]).y, lines[m][0].y)
    {
      assert lines[m - 1] == prev[m - 1];
      if m < |prev| {
        assert lines[m] == prev[m];
      }
    }
  }

  /** An item beyond the tolerance of the previous one (or the first item) opens a new line. */
  lemma OpenLine(init: seq<TextItem>, prev: seq<seq<TextItem>>, item: TextItem)
    requires IsLineGrouping(init, prev)
    requires prev != [] ==> !SameLine(LastItem(prev[|prev| - 1]).y, item.y)
    ensures IsLineGrouping(init + [item], prev + [[item]])
  {
    FlattenSnoc(prev, [item]);
    OpenChained(prev, item);
    OpenBroken(prev, item);
  }

  /** The grouping is a partition of the items into lines with the tolerance rule above. */
  lemma {:induction false} LinesAreGrouping(items: seq<TextItem>)
    ensures IsLineGrouping(items, Lines(items))
    ensures items == [] <==> Lines(items) == []
    decreases |items|
  {
    if items != [] {
      var n := |items|;
      var init := items[..n - 1];
      var prev := Lines(init);
      LinesAreGrouping(init);
      assert items == init + [items[n - 1]];
      if prev != [] {
        FlattenLast(prev);
        assert LastItem(prev[|prev| - 1]) == items[n - 2];
      }
      if n > 1 && prev != [] && SameLine(items[n - 2].y, items[n - 1].y) {
        ExtendLastLine(init, prev, items[n - 1]);
      } else {
        OpenLine(init, prev, items[n - 1]);
      }
    }
  }

  /** One more item either extends the last line or opens a new one. */
  lemma LinesSnoc(init: seq<TextItem>, item: TextItem)
    ensures init != [] ==> Lines(init) != []
    ensures Lines(init + [item]) ==
      if init != [] && SameLine(init[|init| - 1].y, item.y)
      then Lines(init)[..|Lines(init)| - 1] + [Lines(init)[|Lines(init)| - 1] + [item]]
      else Lines(init) + [[item]]
  {
    var items := init + [item];
    assert items[..|items| - 1] == init;
    LinesAreGrouping(init);
  }

  /** One turn of the grouping loop, with the lines so far split into the closed ones and the open one. */
  lemma GroupStep(init: seq<TextItem>, item: TextItem, lines: seq<seq<TextItem>>, current: seq<TextItem>)
    requires init == [] ==> lines == [] && current == []
    requires init != [] ==> lines + [current] == Lines(init)
    ensures init == [] || SameLine(init[|init| - 1].y, item.y) ==>
      lines + [current + [item]] == Lines(init + [item])
    ensures init != [] && !SameLine(init[|init| - 1].y, item.y) ==>
      (lines + [current]) + [[item]] == Lines(init + [item])
  {
    LinesSnoc(init, item);
    if init != [] {
      assert Lines(init)[..|Lines(init)| - 1] == lines;
    }
  }

  /** The grouping loop of the page reconstruction. */
  method GroupLines(items: seq<TextItem>) returns (lines: seq<seq<TextItem>>)
    ensures lines == Lines(items)
    ensures IsLineGrouping(items, lines)
    ensures items == [] <==> lines == []
  {
    lines := [];
    var currentLine: seq<TextItem> := [];
    var currentY: Option<real> := None;
    for i := 0 to |items|
      invariant i == 0 ==> lines == [] && currentLine == []
      invariant i > 0 ==> currentLine != [] && lines + [currentLine] == Lines(items[..i])
      invariant currentY == if i == 0 then None else Some(items[i - 1].y)
    {
      var item := items[i];
      assert items[..i + 1] == items[..i] + [item];
      GroupStep(items[..i], item, lines, currentLine);
      if currentY == None || SameLine(currentY.value, item.y) {
        currentLine := currentLine + [item];
        currentY := Some(item.y);
      } else {
        lines := lines + [currentLine];
        currentLine := [item];
        currentY := Some(item.y);
      }
    }
    if |currentLine| > 0 {
      lines := lines + [currentLine];
    }
    assert items[..|items|] == items;
    LinesAreGrouping(items);
  }

  // ---------------------------------------------------------------- one line's text

  /** What goes between two neighbouring items of a line: one space when the gap is wide. */
  function Separator(prev: TextItem, next: TextItem): string
  {
    if next.x - (prev.x + prev.width) > SpaceThreshold then " " else ""
  }

  /** The line's item strings with their separators, left to right. */
  function LineText(line: seq<TextItem>): string
  {
    if line == [] then ""
    else if |line| == 1 then line[0].str
    else line[0].str + Separator(line[0], line[1]) + LineText(line[1..])
  }

  /** Growing a line on the right adds the separator for the new gap, then the item's string. */
  lemma {:induction false} LineTextSnoc(line: seq<TextItem>, item: TextItem)
    requires line != []
    ensures LineText(line + [item]) == LineText(line) + Separator(line[|line| - 1], item) + item.str
  {
    var ext := line + [item];
    assert ext[0] == line[0];
    if |line| == 1 {
      assert ext[1..] == [item];
    } else {
      var tail := line[1..];
      assert ext[1] == line[1] && ext[1..] == tail + [item];
      assert tail[|tail| - 1] == line[|line| - 1];
      LineTextSnoc(tail, item);
    }
  }

  /** The line-joining loop: one space between two items exactly when the gap exceeds the threshold. */
  method BuildLineText(line: seq<TextItem>) returns (lineText: string)
    ensures lineText == LineText(line)
  {
    lineText := "";
    var previousX: Option<real> := None;
    for i := 0 to |line|
      invariant lineText == LineText(line[..i])
      invariant previousX == if i == 0 then None else Some(line[i - 1].x + line[i - 1].width)
    {
      var item := line[i];
      if previousX.Some? {
        var distance := item.x - previousX.value;
        if distance > SpaceThreshold {
          lineText := lineText + " ";
        }
      }
      lineText := lineText + item.str;
      previousX := Some(item.x + item.width);
      assert line[..i + 1] == line[..i] + [item];
      if i > 0 {
        LineTextSnoc(line[..i], item);
      }
    }
    assert line[..|line|] == line;
  }

  /** "Hello" at x = 0 with width 30, then "world." at x = 40: the gap of 10 becomes one space. */
  lemma HelloWorld()
    ensures LineText([TextItem("Hello", 0.0, 100.0, 30.0), TextItem("world.", 40.0, 100.0, 35.0)]) == "Hello world."
  {
  }

  // ---------------------------------------------------------------- the page

  /** The page's text before clean-up: every line's text followed by a newline. */
  function PageText(lines: seq<seq<TextItem>>): string
  {
    if lines == [] then "" else PageText(lines[..|lines| - 1]) + LineText(lines[|lines| - 1]) + "\n"
  }

  /** The item strings run together, in order. */
  function ItemsText(items: seq<TextItem>): string
  {
    if items == [] then "" else items[0].str + ItemsText(items[1..])
  }

  lemma {:induction false} ItemsTextAppend(a: seq<TextItem>, b: seq<TextItem>)
    ensures ItemsText(a + b) == ItemsText(a) + ItemsText(b)
  {
    if a == [] {
      assert a + b == b;
    } else {
      assert (a + b)[1..] == a[1..] + b;
      ItemsTextAppend(a[1..], b);
    }
  }

  /** Joining a line adds spaces only. */
  lemma {:induction false} LineTextKeepsText(line: seq<TextItem>)
    ensures Strip(LineText(line)) == Strip(ItemsText(line))
  {
    if |line| == 1 {
      assert line[1..] == [];
      assert ItemsText(line) == line[0].str + ItemsText([]);
      assert ItemsText(line) == line[0].str;
    } else if |line| > 1 {
      var sep := Separator(line[0], line[1]);
      LineTextKeepsText(line[1..]);
      StripAppend(line[0].str + sep, LineText(line[1..]));
      StripAppend(line[0].str, sep);
      assert Strip(sep) == "" by {
        if sep != "" {
          assert Strip(sep) == Strip(sep[1..]);
        }
      }
      StripAppend(line[0].str, ItemsText(line[1..]));
    }
  }

  /** A page's text holds its items' characters in order, plus whitespace only. */
  lemma {:induction false} PageTextKeepsText(lines: seq<seq<TextItem>>)
    ensures Strip(PageText(lines)) == Strip(ItemsText(Flatten(lines)))
  {
    if lines != [] {
      var init := lines[..|lines| - 1];
      var last := lines[|lines| - 1];
      PageTextKeepsText(init);
      LineTextKeepsText(last);
      StripAppend(PageText(init) + LineText(last), "\n");
      StripAppend(PageText(init), LineText(last));
      assert Strip("\n") == "";
      ItemsTextAppend(Flatten(init), last);
      StripAppend(ItemsText(Flatten(init)), ItemsText(last));
    }
  }

  /** The raw text of a page whose items are in reading order. */
  function RawPageText(items: seq<TextItem>): string
  {
    PageText(Lines(items))
  }

  lemma RawPageKeepsText(items: seq<TextItem>)
    ensures Strip(RawPageText(items)) == Strip(ItemsText(items))
  {
    LinesAreGrouping(items);
    PageTextKeepsText(Lines(items));
  }
}
