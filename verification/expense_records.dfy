/**
 * The expense records page: the period filter, the category badge colour,
 * the report totals, and the column layout of the exported table.
 */
module ExpenseRecords {
  import opened Wrappers
  import Seqs

  /** A calendar month as `Date` reports it: `month` is 0-based, 0 being January. */
  datatype YearMonth = YearMonth(year: int, month: int)

  predicate ValidMonth(ym: YearMonth) {
    0 <= ym.month < 12
  }

  /** An expense; only the month and year of its date matter here. */
  datatype Expense = Expense(amount: int, category: string, date: YearMonth)

  // ---------------------------------------------------------------- period filter

  /** `new Date(year, month)`: a month outside 0..11 carries into the year. */
  function MonthOf(year: int, month: int): (ym: YearMonth)
    ensures ValidMonth(ym)
    ensures ym.year * 12 + ym.month == year * 12 + month
  {
    YearMonth(year + month / 12, month % 12)
  }

  /** A valid month has exactly one (year, month) spelling. */
  lemma MonthSpellingUnique(a: YearMonth, b: YearMonth)
    requires ValidMonth(a) && ValidMonth(b)
    requires a.year * 12 + a.month == b.year * 12 + b.month
    ensures a == b
  {
  }

  function PreviousMonth(now: YearMonth): (m: YearMonth)
    ensures ValidMonth(m)
    ensures m.year * 12 + m.month == now.year * 12 + now.month - 1
  {
    MonthOf(now.year, now.month - 1)
  }

  /** The month before January is December of the year before; otherwise the year stays. */
  lemma PreviousMonthRollsOver(now: YearMonth)
    requires ValidMonth(now)
    ensures now.month == 0 ==> PreviousMonth(now) == YearMonth(now.year - 1, 11)
    ensures now.month > 0 ==> PreviousMonth(now) == YearMonth(now.year, now.month - 1)
  {
    if now.month == 0 {
      MonthSpellingUnique(PreviousMonth(now), YearMonth(now.year - 1, 11));
    } else {
      MonthSpellingUnique(PreviousMonth(now), YearMonth(now.year, now.month - 1));
    }
  }

  datatype Period = AllTime | ThisMonth | LastMonth | ThisYear

  /** The period test compares the expense's month and year with the current month's, or the previous month's. */
  predicate InPeriod(e: Expense, p: Period, now: YearMonth)
    ensures p == ThisMonth ==> (InPeriod(e, p, now) <==> e.date == now)
    ensures p == LastMonth ==> (InPeriod(e, p, now) <==> e.date == PreviousMonth(now))
    ensures p == ThisYear ==> (InPeriod(e, p, now) <==> e.date.year == now.year)
    ensures p == AllTime ==> InPeriod(e, p, now)
  {
    match p
    case ThisMonth => e.date.month == now.month && e.date.year == now.year
    case LastMonth =>
      var last := PreviousMonth(now);
      e.date.month == last.month && e.date.year == last.year
    case ThisYear => e.date.year == now.year
    case AllTime => true
  }

  function InPeriodAt(p: Period, now: YearMonth): Expense -> bool {
    e => InPeriod(e, p, now)
  }

  /** The expenses shown for a period: an order-preserving selection of exactly those in it. */
  function FilteredExpenses(es: seq<Expense>, p: Period, now: YearMonth): (r: seq<Expense>)
    ensures Seqs.IsSubsequence(r, es)
    ensures forall k :: 0 <= k < |r| ==> InPeriod(r[k], p, now)
    ensures forall k :: 0 <= k < |es| && InPeriod(es[k], p, now) ==> es[k] in r
    ensures forall k :: 0 <= k < |es| ==>
      multiset(r)[es[k]] == if InPeriod(es[k], p, now) then multiset(es)[es[k]] else 0
    ensures p == AllTime ==> r == es
  {
    Seqs.FilterIsSubsequence(es, InPeriodAt(p, now));
    Seqs.FilterMultiplicity(es, InPeriodAt(p, now));
    if p == AllTime then Seqs.FilterAll(es, InPeriodAt(p, now)); Seqs.Filter(es, InPeriodAt(p, now))
    else Seqs.Filter(es, InPeriodAt(p, now))
  }

  /** Everything shown for this month is also shown for this year, in the same order. */
  lemma ThisMonthWithinThisYear(es: seq<Expense>, now: YearMonth)
    ensures Seqs.IsSubsequence(FilteredExpenses(es, ThisMonth, now), FilteredExpenses(es, ThisYear, now))
  {
    Seqs.FilterMonotone(es, InPeriodAt(ThisMonth, now), InPeriodAt(ThisYear, now));
  }

  /** In January, "last month" shows exactly the expenses of December of the previous year. */
  lemma LastMonthInJanuary(e: Expense, now: YearMonth)
    requires ValidMonth(now) && now.month == 0
    ensures InPeriod(e, LastMonth, now) <==> e.date == YearMonth(now.year - 1, 11)
  {
    PreviousMonthRollsOver(now);
  }

  /** "Last month" and "this month" never show the same expense. */
  lemma LastMonthDisjointFromThisMonth(e: Expense, now: YearMonth)
    requires ValidMonth(now)
    ensures !(InPeriod(e, LastMonth, now) && InPeriod(e, ThisMonth, now))
  {
    PreviousMonthRollsOver(now);
  }

  // ---------------------------------------------------------------- category colour

  const OtherCategory: string := "Other"

  const Palette: map<string, string> := map[
    "Food & Dining" := "bg-orange-100 text-orange-800",
    "Transportation" := "bg-blue-100 text-blue-800",
    "Entertainment" := "bg-purple-100 text-purple-800",
    "Shopping" := "bg-pink-100 text-pink-800",
    "Bills & Utilities" := "bg-yellow-100 text-yellow-800",
    "Healthcare" := "bg-red-100 text-red-800",
    "Education" := "bg-green-100 text-green-800",
    OtherCategory := "bg-gray-100 text-gray-800"]

  /** Badge classes for a category: its own entry, or the `Other` entry for anything unlisted. */
  function CategoryColor(category: string): (c: string)
    ensures c in Palette.Values
    ensures category in Palette ==> c == Palette[category]
    ensures category !in Palette ==> c == Palette[OtherCategory]
  {
    if category in Palette then Palette[category] else Palette[OtherCategory]
  }

  /** The names every plain JavaScript object inherits from `Object.prototype`. */
  const ObjectPrototypeMembers: set<string> := {
    "constructor", "hasOwnProperty", "isPrototypeOf", "propertyIsEnumerable",
    "toLocaleString", "toString", "valueOf", "__proto__",
    "__defineGetter__", "__defineSetter__", "__lookupGetter__", "__lookupSetter__"}

  /** What `colors[category] || colors['Other']` evaluates to. */
  datatype Lookup = ClassName(classes: string) | InheritedMember(name: string)

  /**
   * The lookup as written: a property read on an object literal also finds the
   * inherited members, which are truthy, so the fallback is skipped for them.
   */
  function CategoryColorAsWritten(category: string): (r: Lookup)
    ensures category in Palette ==> r == ClassName(Palette[category])
    ensures category !in Palette && category !in ObjectPrototypeMembers ==> r == ClassName(Palette[OtherCategory])
    ensures category in ObjectPrototypeMembers ==> r.InheritedMember?
  {
    if category in Palette then ClassName(Palette[category])
    else if category in ObjectPrototypeMembers then InheritedMember(category)
    else ClassName(Palette[OtherCategory])
  }

  /** A custom category named "constructor" gets a function, not the `Other` classes. */
  lemma CategoryColorAsWrittenSkipsFallback()
    ensures "constructor" !in Palette
    ensures CategoryColorAsWritten("constructor") != ClassName(CategoryColor("constructor"))
  {
    assert "constructor" in ObjectPrototypeMembers;
  }

  /** Outside the inherited names the written lookup and the corrected one agree. */
  lemma CategoryColorAgreesOutsidePrototype(category: string)
    requires category !in ObjectPrototypeMembers
    ensures CategoryColorAsWritten(category) == ClassName(CategoryColor(category))
  {
  }

  // ---------------------------------------------------------------- totals

  function Amount(e: Expense): int { e.amount }

  datatype Totals = Totals(total: int, count: nat, average: real)

  /** The report's summary box: total, record count, and the average, which is 0 for no records. */
  function Summarize(es: seq<Expense>): (t: Totals)
    ensures t.count == |es|
    ensures t.total == Seqs.Sum(es, Amount)
    ensures t.count > 0 ==> t.average * (t.count as real) == t.total as real
    ensures t.count == 0 ==> t.average == 0.0
  {
    var total := Seqs.Sum(es, Amount);
    Totals(total, |es|, if |es| > 0 then total as real / |es| as real else 0.0)
  }

  // ---------------------------------------------------------------- column layout

  const Margin: int := 20

  /** Shares of the available width, in hundredths: Date, Category, Item, Amount, Payment, Attachments. */
  const ColumnPercents: seq<int> := [12, 18, 34, 12, 12, 12]

  /** `Math.round(width * percent / 100)`: the nearest integer, halves rounded up. */
  function RoundShare(width: int, percent: int): (w: int)
    ensures 100 * w - 50 <= width * percent < 100 * w + 50
  {
    (width * percent + 50) / 100
  }

  function RoundedWidths(width: int): (ws: seq<int>)
    ensures |ws| == |ColumnPercents|
    ensures forall i :: 0 <= i < |ws| ==> ws[i] == RoundShare(width, ColumnPercents[i])
  {
    [RoundShare(width, 12), RoundShare(width, 18), RoundShare(width, 34),
     RoundShare(width, 12), RoundShare(width, 12), RoundShare(width, 12)]
  }

  /** Sum of a sequence of widths, accumulated left to right. */
  function TotalWidth(ws: seq<int>): int {
    if |ws| == 0 then 0 else TotalWidth(ws[..|ws| - 1]) + ws[|ws| - 1]
  }

  /** Six roundings each off by at most a half leave the total off by -2 to +3. */
  lemma RoundingDriftBounded(width: int)
    ensures -3 <= width - TotalWidth(RoundedWidths(width)) <= 2
  {
    var ws := RoundedWidths(width);
    TotalWidthOfSix(ws);
    assert 100 * ws[0] - 50 <= width * 12 < 100 * ws[0] + 50;
    assert 100 * ws[1] - 50 <= width * 18 < 100 * ws[1] + 50;
    assert 100 * ws[2] - 50 <= width * 34 < 100 * ws[2] + 50;
    assert 100 * ws[3] - 50 <= width * 12 < 100 * ws[3] + 50;
    assert 100 * ws[4] - 50 <= width * 12 < 100 * ws[4] + 50;
    assert 100 * ws[5] - 50 <= width * 12 < 100 * ws[5] + 50;
  }

  /**
   * The widths after the fix-up: the rounding difference is added to the last
   * column, so the six widths fill the available width exactly.
   */
  function ColumnWidths(width: int): (ws: seq<int>)
    ensures |ws| == 6
    ensures TotalWidth(ws) == width
    ensures forall i :: 0 <= i < 5 ==> ws[i] == RoundShare(width, ColumnPercents[i])
    ensures -3 <= ws[5] - RoundShare(width, ColumnPercents[5]) <= 2
  {
    var rounded := RoundedWidths(width);
    RoundingDriftBounded(width);
    var diff := width - TotalWidth(rounded);
    var ws := if diff != 0 then rounded[5 := rounded[5] + diff] else rounded;
    assert ws[..5] == rounded[..5];
    ws
  }

  lemma TotalWidthSnoc(ws: seq<int>, i: nat)
    requires i < |ws|
    ensures TotalWidth(ws[..i + 1]) == TotalWidth(ws[..i]) + ws[i]
  {
    assert ws[..i + 1][..i] == ws[..i];
  }

  lemma TotalWidthOfSix(ws: seq<int>)
    requires |ws| == 6
    ensures TotalWidth(ws) == ws[0] + ws[1] + ws[2] + ws[3] + ws[4] + ws[5]
  {
    assert ws[..0] == [];
    TotalWidthSnoc(ws, 0);
    TotalWidthSnoc(ws, 1);
    TotalWidthSnoc(ws, 2);
    TotalWidthSnoc(ws, 3);
    TotalWidthSnoc(ws, 4);
    TotalWidthSnoc(ws, 5);
    assert ws[..6] == ws;
  }

  /** Left edges of the columns: the first at the margin, each next one a column width further. */
  method ColumnPositions(margin: int, widths: seq<int>) returns (pos: seq<int>)
    requires |widths| > 0
    ensures |pos| == |widths|
    ensures pos[0] == margin
    ensures forall i :: 0 < i < |pos| ==> pos[i] == pos[i - 1] + widths[i - 1]
    ensures forall i :: 0 <= i < |pos| ==> pos[i] == margin + TotalWidth(widths[..i])
  {
    pos := [margin];
    var i := 1;
    while i < |widths|
      invariant 1 <= i <= |widths|
      invariant |pos| == i
      invariant pos[0] == margin
      invariant forall j :: 0 <= j < i ==> pos[j] == margin + TotalWidth(widths[..j])
    {
      TotalWidthSnoc(widths, i - 1);
      var next := pos[i - 1] + widths[i - 1];
      assert next == margin + TotalWidth(widths[..i]);
      pos := pos + [next];
      i := i + 1;
    }
    forall j | 0 < j < |pos|
      ensures pos[j] == pos[j - 1] + widths[j - 1]
    {
      TotalWidthSnoc(widths, j - 1);
    }
  }

  /** What the export computes before drawing: the summary box and the table columns. */
  datatype Report = Report(totals: Totals, widths: seq<int>, positions: seq<int>)

  /**
   * The export: nothing for an empty list; otherwise the totals and a table
   * whose columns start at the margin and end exactly at the right margin.
   */
  method Download(filtered: seq<Expense>, pageWidth: int) returns (report: Option<Report>)
    ensures report.None? <==> |filtered| == 0
    ensures report.Some? ==>
      && report.value.totals == Summarize(filtered)
      && report.value.widths == ColumnWidths(pageWidth - 2 * Margin)
      && |report.value.widths| == 6 && |report.value.positions| == 6
      && TotalWidth(report.value.widths) == pageWidth - 2 * Margin
      && report.value.positions[0] == Margin
      && (forall i :: 0 <= i < 6 ==> report.value.positions[i] == Margin + TotalWidth(report.value.widths[..i]))
      && report.value.positions[5] + report.value.widths[5] == pageWidth - Margin
  {
    if |filtered| == 0 {
      return None;
    }
    var widths := ColumnWidths(pageWidth - 2 * Margin);
    var positions := ColumnPositions(Margin, widths);
    TotalWidthSnoc(widths, 5);
    assert widths[..6] == widths;
    report := Some(Report(Summarize(filtered), widths, positions));
  }

  /**
   * On a 210 mm page the table is 170 mm: 20, 31, 58, 20, 20 and 21 mm. jsPDF's
   * A4 page is 595.28 pt, about 210.0016 mm; the rounded widths are the same,
   * and the table then ends about 0.0016 mm short of the right margin.
   */
  lemma A4Layout()
    ensures ColumnWidths(170) == [20, 31, 58, 20, 20, 21]
  {
    TotalWidthOfSix(RoundedWidths(170));
  }
}
