/**
 * The borrowing record as the persistence schema defines it: the two enums,
 * the nested counterparty and reminder sub-documents, the string trimming the
 * schema applies, and the validity the schema's validators enforce.
 */
module BorrowingSchema {
  import opened Wrappers

  /** Opaque record and user identifiers. */
  type Id = nat
  type UserId = nat

  /** A point in time, in milliseconds since the epoch. */
  type Millis = int

  /** `borrowed`: the owner owes the counterparty; `lent`: the counterparty owes the owner. */
  datatype Direction = Borrowed | Lent

  datatype Status = Pending | Partial | Paid

  datatype Counterparty = Counterparty(name: string, contact: string)

  datatype Reminder = Reminder(enabled: bool, daysBefore: int)

  /** One ledger entry. Money is in the smallest currency unit. */
  datatype Record = Record(
    id: Id,
    owner: UserId,
    direction: Direction,
    counterparty: Counterparty,
    amount: int,
    remaining: int,
    dueDate: Option<Millis>,
    notes: string,
    reminder: Reminder,
    status: Status,
    createdAt: Millis,
    updatedAt: Millis)

  const DefaultDaysBefore: int := 3

  function DirectionName(d: Direction): string {
    match d
    case Borrowed => "borrowed"
    case Lent => "lent"
  }

  /** The `type` enum: exactly the two names are accepted. */
  function ParseDirection(s: string): (r: Option<Direction>)
    ensures r.Some? <==> (s == "borrowed" || s == "lent")
    ensures r.Some? ==> DirectionName(r.value) == s
  {
    if s == "borrowed" then Some(Borrowed)
    else if s == "lent" then Some(Lent)
    else None
  }

  function StatusName(st: Status): string {
    match st
    case Pending => "pending"
    case Partial => "partial"
    case Paid => "paid"
  }

  /** The `status` enum: exactly the three names are accepted. */
  function ParseStatus(s: string): (r: Option<Status>)
    ensures r.Some? <==> (s == "pending" || s == "partial" || s == "paid")
    ensures r.Some? ==> StatusName(r.value) == s
  {
    if s == "pending" then Some(Pending)
    else if s == "partial" then Some(Partial)
    else if s == "paid" then Some(Paid)
    else None
  }

  /** Naming and parsing are inverse on both enums. */
  lemma EnumNamesRoundTrip(d: Direction, st: Status)
    ensures ParseDirection(DirectionName(d)) == Some(d)
    ensures ParseStatus(StatusName(st)) == Some(st)
  {
  }

  /**
   * The characters `String.prototype.trim` strips: ECMAScript white space and
   * line terminators (tab, vertical tab, form feed, space, no-break space,
   * byte-order mark, the Unicode space separators, LF, CR, LS, PS).
   */
  predicate IsSpace(c: char) {
    c == ' ' || c == '\t' || c == '\n' || c == '\r' || c == '\U{000B}' || c == '\U{000C}' ||
    c == '\U{00A0}' || c == '\U{FEFF}' || c == '\U{1680}' ||
    ('\U{2000}' <= c <= '\U{200A}') || c == '\U{2028}' || c == '\U{2029}' ||
    c == '\U{202F}' || c == '\U{205F}' || c == '\U{3000}'
  }

  /** How many white-space characters `s` starts with. */
  function LeadingSpaces(s: string): (n: nat)
    ensures n <= |s|
    ensures forall i :: 0 <= i < n ==> IsSpace(s[i])
    ensures n < |s| ==> !IsSpace(s[n])
  {
    if |s| > 0 && IsSpace(s[0]) then 1 + LeadingSpaces(s[1..]) else 0
  }

  /** `s` with its trailing white space removed. */
  function TrimEnd(s: string): (r: string)
    ensures |r| <= |s| && r == s[..|r|]
    ensures forall i :: |r| <= i < |s| ==> IsSpace(s[i])
    ensures |r| > 0 ==> !IsSpace(r[|r| - 1])
  {
    if |s| > 0 && IsSpace(s[|s| - 1]) then TrimEnd(s[..|s| - 1]) else s
  }

  /**
   * The schema's `trim: true` setter: the result is the slice of `s` left
   * once the white space at both ends is cut off.
   */
  function Trim(s: string): (r: string)
    ensures LeadingSpaces(s) + |r| <= |s|
    ensures r == s[LeadingSpaces(s)..LeadingSpaces(s) + |r|]
    ensures forall i :: LeadingSpaces(s) + |r| <= i < |s| ==> IsSpace(s[i])
    ensures IsTrimmed(r)
  {
    TrimEnd(s[LeadingSpaces(s)..])
  }

  /** A string with no white space at either end is left alone by `Trim`. */
  predicate IsTrimmed(s: string) {
    |s| == 0 || (!IsSpace(s[0]) && !IsSpace(s[|s| - 1]))
  }

  lemma {:induction false} TrimOfTrimmed(s: string)
    requires IsTrimmed(s)
    ensures Trim(s) == s
  {
    if |s| > 0 {
      assert LeadingSpaces(s) == 0;
      assert TrimEnd(s) == s;
    }
  }

  /** Trimming is idempotent, so a stored (trimmed) string is stable under re-saving. */
  lemma TrimIdempotent(s: string)
    ensures IsTrimmed(Trim(s))
    ensures Trim(Trim(s)) == Trim(s)
  {
    TrimOfTrimmed(Trim(s));
  }

  /**
   * What the schema's validators guarantee of every stored record: `name`
   * present (non-empty after trimming), `amount >= 0`, `daysBefore >= 0`, and
   * the trimmed string fields.
   */
  predicate SchemaValid(r: Record) {
    && r.counterparty.name != ""
    && IsTrimmed(r.counterparty.name)
    && IsTrimmed(r.counterparty.contact)
    && IsTrimmed(r.notes)
    && r.amount >= 0
    && r.reminder.daysBefore >= 0
  }

  /** The balance invariant that payments maintain. */
  predicate BalanceInRange(r: Record) {
    0 <= r.remaining <= r.amount
  }
}
