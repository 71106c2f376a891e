/**
 * Class SoarHtml of soar.php: it takes the analyzer's decoded report, scores
 * it and splits it into the explain slot and the ordinary findings
 * (parseResult), and renders three pieces of phpMyAdmin HTML: the score
 * heading (asNumHtml), the explain block (asExplainHtml) and the table of
 * findings (asItemHtml).
 */
module SoarHtmlView {
  import opened PhpStrings
  import opened SoarBridge
  import opened SoarFindings
  import opened ExplainMarkup

  // ---------------------------------------------------------------------
  // Fixed HTML fragments
  // ---------------------------------------------------------------------

  /** The table columns, in the order of SoarHtml's $columns. */
  const Columns: seq<string> := ["Item", "Level", "Summary", "Content", "Case"]

  /** "SQL建议与优化：" as a level-3 heading. */
  const ItemsHeading := "<h3 style=\"margin:10px 0px;\">SQL\U{5EFA}\U{8BAE}\U{4E0E}\U{4F18}\U{5316}\U{FF1A}</h3>"
  const TableOpen := "<table class=\"table_results ajax pma_table\" data-uniqueid=\"18066\"><thead><tr>"
  const HeadClose := "<td class=\"print_ignore\"><span></span></td></tr></thead><tbody>"
  const TableClose := "</tbody></table>"
  const RowClose := "</tr>"
  const DivOpen := "<div style=\"margin-bottom:20px;\">"
  const DivClose := "</div>"
  /** "评分：" and "分" around the score. */
  const ScoreLabel := "\U{8BC4}\U{5206}\U{FF1A}"
  const ScoreUnit := "\U{5206}"

  function HeadCell(column: string): string {
    "<th class=\"draggable\"><span>" + column + "</span></th>"
  }

  function DataCell(value: string): string {
    "<td data-decimals=\"0\" data-type=\"string\" class=\"data text\"><span>" + value + "</span></td>"
  }

  /** ($index % 2) ? 'even' : 'odd' */
  function RowClass(index: nat): (c: string)
    ensures c == "even" <==> index % 2 == 1
    ensures c == "odd" <==> index % 2 == 0
  {
    if index % 2 != 0 then "even" else "odd"
  }

  function RowOpen(index: nat): string {
    "<tr class=\"" + RowClass(index) + "\">"
  }

  /**
   * The table is striped: the first row and every second one after it open
   * with class "odd", the others with class "even".
   */
  lemma RowStriping(columns: seq<string>, items: seq<Item>, i: nat)
    requires i < |items|
    ensures IsPrefix(OddRowOpen, Rows(columns, items)[i]) <==> i % 2 == 0
    ensures IsPrefix(EvenRowOpen, Rows(columns, items)[i]) <==> i % 2 == 1
  {
    var rest := Concat(Cells(columns, items[i])) + RowClose;
    assert Rows(columns, items)[i] == RowOpen(i) + rest;
    RowOpenPrefix(i, rest);
  }

  const OddRowOpen := "<tr class=\"odd\">"
  const EvenRowOpen := "<tr class=\"even\">"

  lemma RowOpenPrefix(i: nat, rest: string)
    ensures IsPrefix(OddRowOpen, RowOpen(i) + rest) <==> i % 2 == 0
    ensures IsPrefix(EvenRowOpen, RowOpen(i) + rest) <==> i % 2 == 1
  {
    var row := RowOpen(i) + rest;
    if i % 2 == 0 {
      assert RowOpen(i) == OddRowOpen;
      assert row[..|OddRowOpen|] == OddRowOpen;
      assert row[11] == 'o' != EvenRowOpen[11];
    } else {
      assert RowOpen(i) == EvenRowOpen;
      assert row[..|EvenRowOpen|] == EvenRowOpen;
      assert row[11] == 'e' != OddRowOpen[11];
    }
  }

  lemma AppendAssoc(a: string, b: string, c: string)
    ensures (a + b) + c == a + (b + c)
  {
  }

  /** Appending the next part to a concatenated prefix. */
  lemma ExtendConcat(start: string, parts: seq<string>, k: nat)
    requires k < |parts|
    ensures (start + Concat(parts[..k])) + parts[k] == start + Concat(parts[..k + 1])
  {
    assert parts[..k + 1][..k] == parts[..k];
    AppendAssoc(start, Concat(parts[..k]), parts[k]);
  }

  /** The string concatenation of `parts`, in order. */
  function Concat(parts: seq<string>): string {
    if parts == [] then "" else Concat(parts[..|parts| - 1]) + parts[|parts| - 1]
  }

  /** $item[$column]: 'Level' is the integer parseResult() stored, other columns the finding's text. */
  function Cell(it: Item, column: string): string {
    if column == "Level" then IntToString(it.level) else Field(it.finding, column)
  }

  function HeadCells(columns: seq<string>): seq<string> {
    seq(|columns|, k requires 0 <= k < |columns| => HeadCell(columns[k]))
  }

  function Cells(columns: seq<string>, it: Item): seq<string> {
    seq(|columns|, k requires 0 <= k < |columns| => DataCell(Cell(it, columns[k])))
  }

  function RowHtml(columns: seq<string>, index: nat, it: Item): string {
    RowOpen(index) + Concat(Cells(columns, it)) + RowClose
  }

  /** One row per item; the row at position i is rendered with index i. */
  function Rows(columns: seq<string>, items: seq<Item>): seq<string> {
    seq(|items|, i requires 0 <= i < |items| => RowHtml(columns, i, items[i]))
  }

  function HeadHtml(columns: seq<string>): string {
    ItemsHeading + TableOpen + Concat(HeadCells(columns)) + HeadClose
  }

  /**
   * What asItemHtml() returns for `items`: the heading, the table head and one
   * row per item when there are items, and in every case the closing tags.
   */
  function ItemHtml(columns: seq<string>, items: seq<Item>): string {
    (if items == [] then "" else HeadHtml(columns) + Concat(Rows(columns, items))) + TableClose
  }

  // ---------------------------------------------------------------------
  // The margin of the score heading, chosen by phpMyAdmin's version
  // ---------------------------------------------------------------------

  /** The first two fields of explode('.', $version); a missing second field reads as "". */
  function VersionKey(version: string): (key: (string, string))
    ensures '.' !in key.0 && '.' !in key.1
    ensures '.' !in version ==> key == (version, "")
    ensures '.' in version ==> IsPrefix(key.0 + "." + key.1, version)
    ensures '.' in version ==>
      |key.0| + 1 + |key.1| == |version| || version[|key.0| + 1 + |key.1|] == '.'
  {
    var parts := Split(version, '.');
    if '.' in version then DotGivesTwoFields(version); FirstTwoFields(version); (parts[0], parts[1])
    else SplitWithout(version, '.'); (parts[0], "")
  }

  /** A version with a '.' has at least two fields. */
  lemma {:induction false} DotGivesTwoFields(version: string)
    requires '.' in version
    ensures |Split(version, '.')| >= 2
  {
    JoinSplit(version, '.');
  }

  /** The version starts with its first two fields joined by '.', followed by nothing or a '.'. */
  lemma {:induction false} FirstTwoFields(version: string)
    requires |Split(version, '.')| >= 2
    ensures var parts := Split(version, '.');
      var head := parts[0] + "." + parts[1];
      IsPrefix(head, version) && (|head| == |version| || version[|head|] == '.')
  {
    var parts := Split(version, '.');
    JoinSplit(version, '.');
    var head := parts[0] + "." + parts[1];
    var rest := JoinAfterTwo(parts);
    assert version == head + rest;
    assert version[..|head|] == head;
  }

  /** Joining two or more fields with '.' gives the first two, then nothing or a '.' and the rest. */
  lemma JoinAfterTwo(parts: seq<string>) returns (rest: string)
    requires |parts| >= 2
    ensures Join(".", parts) == parts[0] + "." + parts[1] + rest
    ensures rest == [] || rest[0] == '.'
  {
    if |parts| == 2 {
      rest := "";
      assert Join(".", parts[1..]) == parts[1];
    } else {
      rest := "." + Join(".", parts[2..]);
      assert parts[1..][1..] == parts[2..];
      assert Join(".", parts[1..]) == parts[1] + "." + Join(".", parts[2..]);
    }
  }

  /** "major.minor" is a numeric string when both halves are digits and not both empty. */
  predicate NumericVersion(major: string, minor: string) {
    AllDigits(major) && AllDigits(minor) && |major| + |minor| > 0
  }

  function StripTrailingZeros(s: string): (r: string)
    ensures r == [] || r[|r| - 1] != '0'
    ensures IsPrefix(r, s)
  {
    if s == [] || s[|s| - 1] != '0' then s else StripTrailingZeros(s[..|s| - 1])
  }

  /**
   * The loose comparison $ver == '4.d' of the switch: both sides are numeric
   * strings, so they are compared as numbers, and "major.minor" equals 4.d when
   * major has the value 4 and minor is the digit d followed by zeros only.
   */
  predicate VersionIs(major: string, minor: string, d: nat)
    requires d < 10
  {
    && NumericVersion(major, minor)
    && DigitsValue(major) == 4
    && StripTrailingZeros(minor) == (if d == 0 then "" else [DigitChar(d)])
  }

  const MarginNew := "20px 0px 10px 0px"
  const MarginDefault := "20px 0px 0px 0px"
  const MarginOld := "0px 0px 0px 0px"

  /** The margin asNumHtml() picks for PMA_VERSION `version`. */
  function Margin(version: string): string {
    var (major, minor) := VersionKey(version);
    if VersionIs(major, minor, 8) then MarginNew
    else if VersionIs(major, minor, 7) || VersionIs(major, minor, 6) then MarginDefault
    else if exists d :: 0 <= d <= 5 && VersionIs(major, minor, d) then MarginOld
    else MarginDefault
  }

  /** The score heading for the score text `score`: "评分：" score "分" with the version's margin. */
  function NumHeading(version: string, score: string): string {
    "<h3 style=\"margin:" + Margin(version) + "\">" + ScoreLabel + score + ScoreUnit + "</h3>"
  }

  // ---------------------------------------------------------------------
  // Properties of the rendering
  // ---------------------------------------------------------------------

  lemma {:induction false} ConcatAppend(a: seq<string>, b: seq<string>)
    ensures Concat(a + b) == Concat(a) + Concat(b)
    decreases |b|
  {
    if b == [] {
      assert a + b == a;
    } else {
      var b' := b[..|b| - 1];
      assert (a + b)[..|a + b| - 1] == a + b';
      ConcatAppend(a, b');
      AppendAssoc(Concat(a), Concat(b'), b[|b| - 1]);
    }
  }

  /** A concatenation splits around any of its parts. */
  lemma ConcatAround(parts: seq<string>, i: nat)
    requires i < |parts|
    ensures Concat(parts) == Concat(parts[..i]) + parts[i] + Concat(parts[i + 1..])
  {
    assert parts == parts[..i + 1] + parts[i + 1..];
    ConcatAppend(parts[..i + 1], parts[i + 1..]);
    var front := parts[..i + 1];
    assert front[..|front| - 1] == parts[..i] && front[|front| - 1] == parts[i];
    assert Concat(front) == Concat(parts[..i]) + parts[i];
  }

  /**
   * Each finding has its own row, in order: the table is the head, the rows
   * before position i, the row of items[i] rendered with index i, the rows
   * after it, and the closing tags.
   */
  lemma ItemHtmlHasRow(columns: seq<string>, items: seq<Item>, i: nat)
    requires i < |items|
    ensures ItemHtml(columns, items)
         == HeadHtml(columns)
            + (Concat(Rows(columns, items)[..i]) + RowHtml(columns, i, items[i]) + Concat(Rows(columns, items)[i + 1..]))
            + TableClose
  {
    ConcatAround(Rows(columns, items), i);
  }

  /** A row over five columns holds five cells, one per column, in column order. */
  lemma RowOfFiveColumns(columns: seq<string>, index: nat, it: Item)
    requires |columns| == 5
    ensures RowHtml(columns, index, it)
         == RowOpen(index)
            + (DataCell(Cell(it, columns[0])) + DataCell(Cell(it, columns[1])) + DataCell(Cell(it, columns[2]))
               + DataCell(Cell(it, columns[3])) + DataCell(Cell(it, columns[4])))
            + RowClose
  {
    var cells := Cells(columns, it);
    ConcatFive(cells);
  }

  lemma ConcatFive(parts: seq<string>)
    requires |parts| == 5
    ensures Concat(parts) == parts[0] + parts[1] + parts[2] + parts[3] + parts[4]
  {
    assert Concat(parts[..1]) == parts[0] by {
      assert parts[..1][..0] == [];
    }
    ExtendConcat([], parts, 1);
    ExtendConcat([], parts, 2);
    ExtendConcat([], parts, 3);
    ExtendConcat([], parts, 4);
    assert parts[..5] == parts;
    assert [] + Concat(parts[..1]) == Concat(parts[..1]);
    assert [] + Concat(parts) == Concat(parts);
  }

  /**
   * A table row holds the cells Item, Level, Summary, Content and Case of its
   * finding, in that order; the Level cell shows the level parseResult() stored.
   */
  lemma RowHasFiveCells(index: nat, it: Item)
    ensures RowHtml(Columns, index, it)
         == RowOpen(index)
            + (DataCell(Field(it.finding, "Item")) + DataCell(IntToString(it.level))
               + DataCell(Field(it.finding, "Summary")) + DataCell(Field(it.finding, "Content"))
               + DataCell(Field(it.finding, "Case")))
            + RowClose
  {
    RowOfFiveColumns(Columns, index, it);
  }

  /** For a release 4.d (optionally followed by ".patch") the switch picks the margin of its case. */
  lemma MarginOfRelease(d: nat, patch: string)
    requires d < 10
    requires patch == "" || patch[0] == '.'
    ensures Margin("4." + [DigitChar(d)] + patch)
         == if d == 8 then MarginNew else if d <= 5 then MarginOld else MarginDefault
  {
    var c := DigitChar(d);
    var version := "4." + [c] + patch;
    assert version == "4" + ['.'] + ([c] + patch);
    SplitAfter("4", '.', [c] + patch);
    if patch == "" {
      assert [c] + patch == [c];
      SplitWithout([c], '.');
    } else {
      assert [c] + patch == [c] + ['.'] + patch[1..];
      SplitAfter([c], '.', patch[1..]);
    }
    assert VersionKey(version) == ("4", [c]);
    assert DigitsValue("4") == 4 by {
      assert "4"[..0] == [];
    }
    forall e: nat | e < 10 ensures VersionIs("4", [c], e) <==> e == d {
      if e != d {
        assert DigitChar(e) != c;
      }
    }
    assert VersionIs("4", [c], 8) <==> d == 8;
    assert VersionIs("4", [c], 7) || VersionIs("4", [c], 6) <==> d == 7 || d == 6;
    if d <= 5 {
      assert VersionIs("4", [c], d);
    } else {
      assert !exists e :: 0 <= e <= 5 && VersionIs("4", [c], e);
    }
  }

  /**
   * The switch compares loosely: "4.10" and "4.1" are equal numeric strings,
   * so a 4.10 release would get the margin of the 4.1 case.
   */
  lemma MarginLooseMatch()
    ensures Margin("4.10") == MarginOld
  {
    assert "4.10" == "4" + ['.'] + "10";
    SplitAfter("4", '.', "10");
    SplitWithout("10", '.');
    assert VersionKey("4.10") == ("4", "10");
    assert StripTrailingZeros("10") == "1" by {
      assert "10"[..1] == "1";
    }
    assert DigitsValue("4") == 4 by {
      assert "4"[..0] == [];
    }
    assert VersionIs("4", "10", 1);
  }

  /** What one more entry adds to the score's deductions, the explain slot and the ordinary findings. */
  lemma ParseStep(entries: seq<Entry>, i: nat)
    requires i < |entries|
    ensures SumLevels(entries[..i + 1]) == SumLevels(entries[..i]) + SeverityLevel(entries[i].1)
    ensures ExplainSlot(entries[..i + 1])
         == if IsExplainKey(entries[i].0) then entries[i].1 else ExplainSlot(entries[..i])
    ensures Ordinary(entries[..i + 1])
         == if IsExplainKey(entries[i].0) then Ordinary(entries[..i])
            else Ordinary(entries[..i]) + [Item(entries[i].1, SeverityLevel(entries[i].1))]
  {
    assert entries[..i + 1][..i] == entries[..i];
  }

  /**
   * The foreach of parseResult(): the running total after the deductions, the
   * explain slot, and the ordinary findings with their levels, in input order.
   */
  method ScanEntries(entries: seq<Entry>) returns (total: int, explainItem: Finding, items: seq<Item>)
    ensures total == 100 - 5 * SumLevels(entries)
    ensures explainItem == ExplainSlot(entries)
    ensures items == Ordinary(entries)
  {
    total := 100;
    explainItem := map[];
    items := [];
    for i := 0 to |entries|
      invariant total == 100 - 5 * SumLevels(entries[..i])
      invariant explainItem == ExplainSlot(entries[..i])
      invariant items == Ordinary(entries[..i])
    {
      ParseStep(entries, i);
      var key := entries[i].0;
      var val := entries[i].1;
      var level := SeverityLevel(val);
      total := total - level * 5;
      if IsExplainKey(key) {
        explainItem := val;
      } else {
        items := items + [Item(val, level)];
      }
    }
    assert entries[..|entries|] == entries;
  }

  // ---------------------------------------------------------------------
  // The class
  // ---------------------------------------------------------------------

  class SoarHtml {
    /** The report as given to the constructor. */
    var r: seq<Entry>
    /** $this->config['num'], ['explain'] and ['analysis']. */
    var num: int
    var explain: Finding
    var analysis: seq<Item>
    /** $columns: the table's columns, never changed. */
    var columns: seq<string>

    /** The state parseResult() leaves: the score, the explain slot and the sorted findings of `r`. */
    ghost predicate Parsed()
      reads this
    {
      && num == Score(r)
      && explain == ExplainSlot(r)
      && analysis == SortByLevel(Ordinary(r))
    }

    /** The columns are the five of Columns. */
    ghost predicate Valid()
      reads this
    {
      columns == Columns
    }

    constructor(arr: seq<Entry>)
      ensures r == arr && Parsed() && Valid()
    {
      r := arr;
      columns := Columns;
      num := 0;
      explain := map[];
      analysis := [];
      new;
      ParseResult();
    }

    /**
     * One pass over the entries: deduct five points per level, keep the last
     * explain-class finding, collect the others with their level; then sort
     * them and clamp the score at 0.
     */
    method ParseResult()
      modifies this
      ensures r == old(r) && columns == old(columns) && Parsed()
    {
      var total, explainItem, items := ScanEntries(r);
      analysis := SortByLevel(items);
      num := if total < 0 then 0 else total;
      explain := explainItem;
    }

    /** The score heading; `version` stands for PMA_VERSION. After parseResult() it shows the score of the report. */
    function AsNumHtml(version: string): (h: string)
      reads this
      ensures Parsed() ==> h == NumHeading(version, IntToString(Score(r)))
    {
      NumHeading(version, IntToString(num))
    }

    /**
     * Empty exactly when there is no explain finding; otherwise its 'Case' text
     * after the four markup passes, inside the margin-bottom div.
     */
    function AsExplainHtml(): (h: string)
      reads this
      ensures h == "" <==> explain == map[]
      ensures explain != map[] ==> h == DivOpen + MarkupToHtml(Field(explain, "Case")) + DivClose
    {
      if explain == map[] then "" else DivOpen + MarkupToHtml(Field(explain, "Case")) + DivClose
    }

    /** The findings table, built by appending to the output as asItemHtml() does. */
    method AsItemHtml() returns (html: string)
      ensures html == ItemHtml(columns, analysis)
      ensures analysis == [] ==> html == TableClose
    {
      html := "";
      if analysis != [] {
        html := AppendHead(html, columns);
        ghost var head := html;
        assert head == HeadHtml(columns);
        var rows := Rows(columns, analysis);
        for i := 0 to |analysis|
          invariant html == head + Concat(rows[..i])
        {
          html := AppendRow(html, columns, i, analysis[i]);
          ExtendConcat(head, rows, i);
        }
        assert rows[..|analysis|] == rows;
        assert html == HeadHtml(columns) + Concat(Rows(columns, analysis));
      }
      html := html + TableClose;
    }
  }

  /** Appends the heading and the table head, one header cell per column. */
  method AppendHead(start: string, columns: seq<string>) returns (html: string)
    ensures html == start + HeadHtml(columns)
  {
    html := start + ItemsHeading;
    html := html + TableOpen;
    ghost var opening := html;
    var headCells := HeadCells(columns);
    for k := 0 to |columns|
      invariant html == opening + Concat(headCells[..k])
    {
      html := html + HeadCell(columns[k]);
      ExtendConcat(opening, headCells, k);
    }
    assert headCells[..|columns|] == headCells;
    html := html + HeadClose;
    AppendAssoc(start, ItemsHeading, TableOpen);
    AppendAssoc(start, ItemsHeading + TableOpen, Concat(headCells));
    AppendAssoc(start, ItemsHeading + TableOpen + Concat(headCells), HeadClose);
  }

  /** Appends the row of `item` at position `index`: its class, then one cell per column. */
  method AppendRow(start: string, columns: seq<string>, index: nat, item: Item) returns (html: string)
    ensures html == start + RowHtml(columns, index, item)
  {
    var rowClass := if index % 2 != 0 then "even" else "odd";
    html := start + ("<tr class=\"" + rowClass + "\">");
    ghost var rowStart := html;
    var cells := Cells(columns, item);
    for k := 0 to |columns|
      invariant html == rowStart + Concat(cells[..k])
    {
      html := html + DataCell(Cell(item, columns[k]));
      ExtendConcat(rowStart, cells, k);
    }
    assert cells[..|columns|] == cells;
    html := html + RowClose;
    AppendAssoc(start, RowOpen(index), Concat(cells));
    AppendAssoc(start, RowOpen(index) + Concat(cells), RowClose);
  }

  /** Explain text without '#' and '*' is shown unchanged inside the div. */
  lemma ExplainPlainCase(v: SoarHtml)
    requires v.explain != map[]
    requires '#' !in Field(v.explain, "Case") && '*' !in Field(v.explain, "Case")
    ensures v.AsExplainHtml() == DivOpen + Field(v.explain, "Case") + DivClose
  {
    MarkupPlainText(Field(v.explain, "Case"));
  }

  // ---------------------------------------------------------------------
  // Whole reports
  // ---------------------------------------------------------------------

  /** A report of one entry: its level is the whole deduction, and it is either the explain slot or the one row. */
  lemma SingleEntry(key: string, f: Finding)
    ensures SumLevels([(key, f)]) == SeverityLevel(f)
    ensures ExplainSlot([(key, f)]) == if IsExplainKey(key) then f else map[]
    ensures SortByLevel(Ordinary([(key, f)])) == if IsExplainKey(key) then [] else [Item(f, SeverityLevel(f))]
  {
    var entries := [(key, f)];
    assert entries[..|entries| - 1] == [];
    assert entries[|entries| - 1] == (key, f);
    var it := Item(f, SeverityLevel(f));
    assert SortByLevel([it]) == InsertByLevel(it, SortByLevel([]));
  }

  lemma ScoreTexts()
    ensures IntToString(100) == "100" && IntToString(80) == "80" && IntToString(0) == "0"
  {
    assert NatToString(100) == NatToString(10) + [DigitChar(0)];
    assert NatToString(10) == NatToString(1) + [DigitChar(0)];
    assert NatToString(80) == NatToString(8) + [DigitChar(0)];
  }

  /** An empty report scores 100, has no explain block and renders only the closing tags. */
  method RenderEmpty(version: string) returns (numHtml: string, explainHtml: string, itemHtml: string)
    ensures numHtml == NumHeading(version, "100")
    ensures explainHtml == ""
    ensures itemHtml == TableClose
  {
    var v := new SoarHtml([]);
    assert v.num == 100 && v.explain == map[] && v.analysis == [] by {
      assert Ordinary([]) == [] && SumLevels([]) == 0;
    }
    ScoreTexts();
    numHtml := v.AsNumHtml(version);
    explainHtml := v.AsExplainHtml();
    itemHtml := v.AsItemHtml();
  }

  /** The parse of one ordinary finding of severity L4. */
  lemma OneFindingParsed(f: Finding)
    requires Field(f, "Severity") == "L4"
    ensures Score([("0", f)]) == 80
    ensures ExplainSlot([("0", f)]) == map[]
    ensures SortByLevel(Ordinary([("0", f)])) == [Item(f, 4)]
  {
    assert "L4" == ['L'] + NatToString(4);
    SeverityOfLevel(f, 'L', 4);
    DigitsHaveNoExp("0");
    SingleEntry("0", f);
  }

  /** One finding of severity L4 costs 20 points and is the one row of the table, at level 4. */
  method RenderOneFinding(f: Finding, version: string) returns (numHtml: string, explainHtml: string, itemHtml: string)
    requires Field(f, "Severity") == "L4"
    ensures numHtml == NumHeading(version, "80")
    ensures explainHtml == ""
    ensures itemHtml == ItemHtml(Columns, [Item(f, 4)])
  {
    var v := new SoarHtml([("0", f)]);
    OneFindingParsed(f);
    ScoreTexts();
    numHtml := v.AsNumHtml(version);
    explainHtml := v.AsExplainHtml();
    itemHtml := v.AsItemHtml();
  }

  /** A single finding of severity L25 costs 125 points; the score stops at 0. */
  lemma SevereParsed(f: Finding)
    requires Field(f, "Severity") == "L25"
    ensures Score([("0", f)]) == 0
  {
    assert "L25" == ['L'] + NatToString(25) by {
      assert NatToString(25) == NatToString(2) + [DigitChar(5)];
    }
    SeverityOfLevel(f, 'L', 25);
    SingleEntry("0", f);
  }

  method RenderSevere(f: Finding, version: string) returns (numHtml: string)
    requires Field(f, "Severity") == "L25"
    ensures numHtml == NumHeading(version, "0")
  {
    var v := new SoarHtml([("0", f)]);
    SevereParsed(f);
    ScoreTexts();
    numHtml := v.AsNumHtml(version);
  }

  /** The parse of the fallback report [[]]: one ordinary entry without fields. */
  lemma FallbackParsed()
    ensures Score(EmptyReport.entries) == 100
    ensures ExplainSlot(EmptyReport.entries) == map[]
    ensures SortByLevel(Ordinary(EmptyReport.entries)) == [Item(map[], 0)]
  {
    assert EmptyReport.entries == [("0", map[])];
    assert Field(map[], "Severity") == "";
    IntValNoDigits("");
    DigitsHaveNoExp("0");
    SingleEntry("0", map[]);
  }

  /**
   * The fallback [[]] that analysis() returns for an empty or failed decode
   * scores 100 and renders one row whose cells are all empty but the level 0.
   */
  method RenderFallback(version: string) returns (numHtml: string, explainHtml: string, itemHtml: string)
    ensures numHtml == NumHeading(version, "100")
    ensures explainHtml == ""
    ensures itemHtml == ItemHtml(Columns, [Item(map[], 0)])
  {
    var v := new SoarHtml(EmptyReport.entries);
    FallbackParsed();
    ScoreTexts();
    numHtml := v.AsNumHtml(version);
    explainHtml := v.AsExplainHtml();
    itemHtml := v.AsItemHtml();
  }

  /** The parse of a report holding one explain entry and no Severity. */
  lemma ExplainOnlyParsed(key: string, f: Finding)
    requires IsExplainKey(key) && "Severity" !in f
    ensures Score([(key, f)]) == 100
    ensures ExplainSlot([(key, f)]) == f
    ensures SortByLevel(Ordinary([(key, f)])) == []
  {
    assert Field(f, "Severity") == "";
    IntValNoDigits("");
    SingleEntry(key, f);
  }

  /**
   * A report holding only an explain entry whose Case is a "###" heading line
   * and a "* " bullet line: the score stays 100, the table is empty, and the
   * explain block holds the heading and the list.
   */
  method RenderExplain(key: string, title: string, point: string, version: string)
    returns (numHtml: string, explainHtml: string, itemHtml: string)
    requires IsExplainKey(key)
    requires PlainLine(title) && PlainLine(point)
    ensures numHtml == NumHeading(version, "100")
    ensures explainHtml
         == DivOpen + ((Heading.before + title + Heading.after) + (Bullet.before + point + Bullet.after)) + DivClose
    ensures itemHtml == TableClose
  {
    var f := map["Case" := "###" + title + "\n" + "* " + point + "\n"];
    var v := new SoarHtml([(key, f)]);
    ExplainOnlyParsed(key, f);
    assert Field(f, "Case") == "###" + title + "\n" + "* " + point + "\n";
    MarkupHeadingAndBullet(title, point);
    ScoreTexts();
    numHtml := v.AsNumHtml(version);
    explainHtml := v.AsExplainHtml();
    itemHtml := v.AsItemHtml();
  }
}
