/**
 * State the borrowing page derives from the fetched records and the current
 * time: overdue detection and severity, the summary cards, the list filters
 * and the six-per-page pagination. Every function takes `now` explicitly.
 */
module BorrowingView {
  import opened Wrappers
  import opened BorrowingSchema
  import Seqs
  import BorrowingController

  /** A record as the page receives it; the page guards against missing numbers. */
  datatype Item = Item(
    id: Id,
    direction: Direction,
    amount: Option<int>,
    remaining: Option<int>,
    dueDate: Option<Millis>,
    status: Status)

  /** The JSON the server sends for a stored record. */
  function ItemOf(r: Record): Item {
    Item(r.id, r.direction, Some(r.amount), Some(r.remaining), r.dueDate, r.status)
  }

  function ItemsOf(rs: seq<Record>): (items: seq<Item>)
    ensures |items| == |rs|
    ensures forall k :: 0 <= k < |rs| ==> items[k] == ItemOf(rs[k])
  {
    if |rs| == 0 then [] else [ItemOf(rs[0])] + ItemsOf(rs[1..])
  }

  // ---------------------------------------------------------------- overdue

  const MillisPerDay: int := 1000 * 60 * 60 * 24

  /**
   * A due date is set, it has passed (strictly), and the entry is not marked
   * paid; the flag agrees with the day count being at least one.
   */
  predicate IsOverdue(it: Item, now: Millis)
    ensures IsOverdue(it, now) <==> OverdueDays(it, now) >= 1
  {
    OverdueDaysPositive(it, now);
    it.dueDate.Some? && it.dueDate.value < now && it.status != Paid
  }

  /** `Math.ceil(a / b)` for a positive divisor. */
  function CeilDiv(a: int, b: int): (q: int)
    requires b > 0
    ensures (q - 1) * b < a <= q * b
  {
    -((-a) / b)
  }

  /**
   * Whole days past the due date, partial days rounded up; 0 without a due
   * date or once paid. Not clamped: a due date still ahead gives a value <= 0.
   */
  function OverdueDays(it: Item, now: Millis): (days: int)
    ensures it.dueDate.None? || it.status == Paid ==> days == 0
    ensures it.dueDate.Some? && it.status != Paid ==>
      (days - 1) * MillisPerDay < now - it.dueDate.value <= days * MillisPerDay
  {
    if it.dueDate.None? || it.status == Paid then 0
    else CeilDiv(now - it.dueDate.value, MillisPerDay)
  }

  /** The day count is positive exactly for a passed due date on an unpaid entry. */
  lemma OverdueDaysPositive(it: Item, now: Millis)
    ensures OverdueDays(it, now) >= 1 <==> it.dueDate.Some? && it.dueDate.value < now && it.status != Paid
  {
    if it.dueDate.Some? && it.status != Paid {
      var d := OverdueDays(it, now);
      var diff := now - it.dueDate.value;
      if diff > 0 {
        assert d * MillisPerDay >= diff > 0;
      } else {
        assert (d - 1) * MillisPerDay < diff <= 0;
      }
    }
  }

  datatype Severity = Normal | Mild | Moderate | Severe

  /** Position of a severity on the scale `normal < mild < moderate < severe`. */
  function Rank(s: Severity): nat {
    match s
    case Normal => 0
    case Mild => 1
    case Moderate => 2
    case Severe => 3
  }

  /** The bands: `normal` up to 0, `mild` 1-7, `moderate` 8-30, `severe` beyond. */
  function SeverityOfDays(days: int): (s: Severity)
    ensures s == Normal <==> days <= 0
    ensures s == Mild <==> 1 <= days <= 7
    ensures s == Moderate <==> 8 <= days <= 30
    ensures s == Severe <==> days > 30
  {
    if days <= 0 then Normal
    else if days <= 7 then Mild
    else if days <= 30 then Moderate
    else Severe
  }

  /** The severity badge shows something other than `normal` exactly for overdue entries. */
  function OverdueSeverity(it: Item, now: Millis): (s: Severity)
    ensures s != Normal <==> IsOverdue(it, now)
  {
    SeverityOfDays(OverdueDays(it, now))
  }

  /** More days overdue never means a milder band. */
  lemma SeverityMonotone(d1: int, d2: int)
    requires d1 <= d2
    ensures Rank(SeverityOfDays(d1)) <= Rank(SeverityOfDays(d2))
  {
  }

  /** An overdue entry is at least one day overdue; any other entry counts at most 0 days. */
  lemma OverdueDaysSign(it: Item, now: Millis)
    ensures IsOverdue(it, now) ==> OverdueDays(it, now) >= 1
    ensures !IsOverdue(it, now) ==> OverdueDays(it, now) <= 0
  {
  }

  lemma CeilDivMonotone(a1: int, a2: int, b: int)
    requires b > 0 && a1 <= a2
    ensures CeilDiv(a1, b) <= CeilDiv(a2, b)
  {
    var q1, q2 := CeilDiv(a1, b), CeilDiv(a2, b);
    assert (q1 - 1 - q2) * b < 0;
  }

  /** As time passes an entry's severity never improves (until it is paid). */
  lemma SeverityMonotoneInTime(it: Item, now1: Millis, now2: Millis)
    requires now1 <= now2
    ensures OverdueDays(it, now1) <= OverdueDays(it, now2)
    ensures Rank(OverdueSeverity(it, now1)) <= Rank(OverdueSeverity(it, now2))
  {
    if it.dueDate.Some? && it.status != Paid {
      CeilDivMonotone(now1 - it.dueDate.value, now2 - it.dueDate.value, MillisPerDay);
    }
    SeverityMonotone(OverdueDays(it, now1), OverdueDays(it, now2));
  }

  /** Ten days past due and partly paid: overdue, 10 days, `moderate`; one millisecond late already counts a day. */
  lemma TenDaysLateIsModerate(it: Item, now: Millis)
    requires it.status == Partial && it.dueDate == Some(now - 10 * MillisPerDay)
    ensures IsOverdue(it, now)
    ensures OverdueDays(it, now) == 10
    ensures OverdueSeverity(it, now) == Moderate
    ensures OverdueDays(it.(dueDate := Some(now - 1)), now) == 1
  {
  }

  // ---------------------------------------------------------------- filters

  datatype ListFilter = AllItems | OwedByMe | OwedToMe | OverdueOnly

  predicate IsBorrowedItem(it: Item) { it.direction == Borrowed }
  predicate IsLentItem(it: Item) { it.direction == Lent }

  /** Whether the list keeps `it` under filter `f`. */
  predicate Keeps(f: ListFilter, now: Millis, it: Item) {
    match f
    case OwedByMe => IsBorrowedItem(it)
    case OwedToMe => IsLentItem(it)
    case OverdueOnly => IsOverdue(it, now)
    case AllItems => true
  }

  function KeepsUnder(f: ListFilter, now: Millis): Item -> bool {
    it => Keeps(f, now, it)
  }

  function OverdueAt(now: Millis): Item -> bool {
    it => IsOverdue(it, now)
  }

  /** The list under a filter: an order-preserving selection of exactly the kept items. */
  function FilteredItems(items: seq<Item>, f: ListFilter, now: Millis): (r: seq<Item>)
    ensures Seqs.IsSubsequence(r, items)
    ensures forall k :: 0 <= k < |r| ==> Keeps(f, now, r[k])
    ensures forall k :: 0 <= k < |items| && Keeps(f, now, items[k]) ==> items[k] in r
    ensures forall k :: 0 <= k < |items| ==>
      multiset(r)[items[k]] == if Keeps(f, now, items[k]) then multiset(items)[items[k]] else 0
    ensures f == AllItems ==> r == items
    ensures f == OverdueOnly ==> r == Seqs.Filter(items, OverdueAt(now))
  {
    Seqs.FilterIsSubsequence(items, KeepsUnder(f, now));
    Seqs.FilterMultiplicity(items, KeepsUnder(f, now));
    if f == AllItems then Seqs.FilterAll(items, KeepsUnder(f, now)); Seqs.Filter(items, KeepsUnder(f, now))
    else if f == OverdueOnly then Seqs.FilterEquivalent(items, KeepsUnder(f, now), OverdueAt(now)); Seqs.Filter(items, KeepsUnder(f, now))
    else Seqs.Filter(items, KeepsUnder(f, now))
  }

  /** "Owed by me" and "owed to me" split the list between them. */
  lemma OwedFiltersPartition(items: seq<Item>, now: Millis)
    ensures |FilteredItems(items, OwedByMe, now)| + |FilteredItems(items, OwedToMe, now)| == |items|
  {
    Seqs.FilterPartitionLength(items, KeepsUnder(OwedByMe, now), KeepsUnder(OwedToMe, now));
  }

  // ---------------------------------------------------------------- summary

  /** `remaining ?? amount ?? 0`: a stored 0 balance stays 0. */
  function Outstanding(it: Item): (o: int)
    ensures it.remaining.Some? ==> o == it.remaining.value
    ensures it.remaining.None? && it.amount.Some? ==> o == it.amount.value
    ensures it.remaining.None? && it.amount.None? ==> o == 0
  {
    it.remaining.GetOr(it.amount.GetOr(0))
  }

  datatype Summary = Summary(owedByMe: int, owedToMe: int, total: nat, overdueCount: nat, overdueAmount: int)

  /**
   * The summary cards, each computed by its own filter over the items: the
   * borrowed sum is the "owed by me" list's, the lent sum the "owed to me"
   * list's, and the overdue figures the "overdue" list's. The two directions
   * share out the whole outstanding sum.
   */
  function Summarize(items: seq<Item>, now: Millis): (s: Summary)
    ensures s.total == |items|
    ensures s.owedByMe == Seqs.Sum(FilteredItems(items, OwedByMe, now), Outstanding)
    ensures s.owedToMe == Seqs.Sum(FilteredItems(items, OwedToMe, now), Outstanding)
    ensures s.overdueCount == |FilteredItems(items, OverdueOnly, now)| <= s.total
    ensures s.overdueAmount == Seqs.Sum(FilteredItems(items, OverdueOnly, now), Outstanding)
    ensures s.owedByMe + s.owedToMe == Seqs.Sum(items, Outstanding)
    ensures (forall k :: 0 <= k < |items| ==> Outstanding(items[k]) >= 0) ==>
      s.owedByMe >= 0 && s.owedToMe >= 0 && 0 <= s.overdueAmount <= s.owedByMe + s.owedToMe
  {
    var borrowed := Seqs.Filter(items, IsBorrowedItem);
    var lent := Seqs.Filter(items, IsLentItem);
    var overdue := Seqs.Filter(items, OverdueAt(now));
    SummaryFiltersAreListFilters(items, now);
    Seqs.FilterPartitionSum(items, IsBorrowedItem, IsLentItem, Outstanding);
    FilteredSumsBounded(items, now);
    Summary(Seqs.Sum(borrowed, Outstanding), Seqs.Sum(lent, Outstanding), |items|, |overdue|, Seqs.Sum(overdue, Outstanding))
  }

  /** The summary's own filters select the same lists as the filter buttons. */
  lemma SummaryFiltersAreListFilters(items: seq<Item>, now: Millis)
    ensures FilteredItems(items, OwedByMe, now) == Seqs.Filter(items, IsBorrowedItem)
    ensures FilteredItems(items, OwedToMe, now) == Seqs.Filter(items, IsLentItem)
    ensures FilteredItems(items, OverdueOnly, now) == Seqs.Filter(items, OverdueAt(now))
  {
    Seqs.FilterEquivalent(items, KeepsUnder(OwedByMe, now), IsBorrowedItem);
    Seqs.FilterEquivalent(items, KeepsUnder(OwedToMe, now), IsLentItem);
  }

  lemma FilteredSumsBounded(items: seq<Item>, now: Millis)
    ensures (forall k :: 0 <= k < |items| ==> Outstanding(items[k]) >= 0) ==>
      && 0 <= Seqs.Sum(Seqs.Filter(items, IsBorrowedItem), Outstanding) <= Seqs.Sum(items, Outstanding)
      && 0 <= Seqs.Sum(Seqs.Filter(items, IsLentItem), Outstanding) <= Seqs.Sum(items, Outstanding)
      && 0 <= Seqs.Sum(Seqs.Filter(items, OverdueAt(now)), Outstanding) <= Seqs.Sum(items, Outstanding)
  {
    if forall k :: 0 <= k < |items| ==> Outstanding(items[k]) >= 0 {
      Seqs.FilterSumBounded(items, IsBorrowedItem, Outstanding);
      Seqs.FilterSumBounded(items, IsLentItem, Outstanding);
      Seqs.FilterSumBounded(items, OverdueAt(now), Outstanding);
    }
  }

  /** For records listed from a valid store the page's balances are the stored ones, so every total is non-negative. */
  lemma ListedSummaryNonNegative(st: BorrowingController.Store, owner: UserId, now: Millis)
    requires BorrowingController.Valid(st)
    ensures var items := ItemsOf(BorrowingController.GetBorrowings(st, owner));
      var s := Summarize(items, now);
      && (forall k :: 0 <= k < |items| ==> Outstanding(items[k]) == BorrowingController.GetBorrowings(st, owner)[k].remaining)
      && s.owedByMe >= 0 && s.owedToMe >= 0 && 0 <= s.overdueAmount <= s.owedByMe + s.owedToMe
  {
    var rs := BorrowingController.GetBorrowings(st, owner);
    forall k | 0 <= k < |rs|
      ensures BalanceInRange(rs[k])
    {
      assert BorrowingController.StoredWell(st, rs[k].id);
    }
  }

  // ---------------------------------------------------------------- pagination

  const PageSize: nat := 6

  /** `max(1, ceil(n / 6))`: the fewest pages that hold `n` items, and at least one. */
  function TotalPages(n: nat): (t: nat)
    ensures t >= 1
    ensures n <= t * PageSize
    ensures n > 0 ==> (t - 1) * PageSize < n
    ensures n == 0 ==> t == 1
  {
    if n == 0 then 1 else (n + PageSize - 1) / PageSize
  }

  function Min(a: int, b: int): int { if a <= b then a else b }

  /** `slice((page - 1) * 6, page * 6)`: at most six items, taken in order from the page's offset. */
  function Page(s: seq<Item>, page: nat): (r: seq<Item>)
    requires page >= 1
    ensures |r| <= PageSize
    ensures |r| == if (page - 1) * PageSize < |s| then Min(page * PageSize, |s|) - (page - 1) * PageSize else 0
    ensures forall k :: 0 <= k < |r| ==> r[k] == s[(page - 1) * PageSize + k]
  {
    var start := (page - 1) * PageSize;
    if start >= |s| then [] else s[start..Min(page * PageSize, |s|)]
  }

  /** Pages `1..k` laid end to end. */
  function PagesUpTo(s: seq<Item>, k: nat): seq<Item> {
    if k == 0 then [] else PagesUpTo(s, k - 1) + Page(s, k)
  }

  lemma {:induction false} PagesUpToIsPrefix(s: seq<Item>, k: nat)
    ensures PagesUpTo(s, k) == s[..Min(k * PageSize, |s|)]
  {
    if k > 0 {
      PagesUpToIsPrefix(s, k - 1);
      var lo := Min((k - 1) * PageSize, |s|);
      var hi := Min(k * PageSize, |s|);
      assert Page(s, k) == s[lo..hi];
      assert s[..lo] + s[lo..hi] == s[..hi];
    }
  }

  /** Pages `1..totalPages` together are the whole list, in order. */
  lemma PagesReassemble(s: seq<Item>)
    ensures PagesUpTo(s, TotalPages(|s|)) == s
  {
    PagesUpToIsPrefix(s, TotalPages(|s|));
  }

  /** The previous-page button: `max(1, page - 1)`. */
  function PrevPage(page: int): (p: int)
    ensures p >= 1
    ensures page > 1 ==> p == page - 1
    ensures page <= 1 ==> p == 1
  {
    if page - 1 > 1 then page - 1 else 1
  }

  /** The next-page button: `min(totalPages, page + 1)`. */
  function NextPage(page: int, totalPages: int): (p: int)
    ensures p <= totalPages
    ensures page < totalPages ==> p == page + 1
    ensures page >= totalPages ==> p == totalPages
  {
    if page + 1 < totalPages then page + 1 else totalPages
  }

  /** Both buttons keep the current page within `[1, totalPages]`. */
  lemma PageButtonsStayInRange(page: int, n: nat)
    requires 1 <= page <= TotalPages(n)
    ensures 1 <= PrevPage(page) <= TotalPages(n)
    ensures 1 <= NextPage(page, TotalPages(n)) <= TotalPages(n)
  {
  }

  /** The "Showing a - b of n" label counts exactly the items on the page. */
  lemma ShowingLabelCountsPage(s: seq<Item>, page: nat)
    requires |s| > 0 && 1 <= page <= TotalPages(|s|)
    ensures Min(page * PageSize, |s|) - ((page - 1) * PageSize + 1) + 1 == |Page(s, page)|
  {
  }
}
