/**
 * The request bodies the borrowing page builds from its forms and buttons,
 * and what the server makes of them. `new Date(text)` is the `parseDate`
 * parameter; text-to-number conversion happens before the model.
 */
module BorrowingForms {
  import opened Wrappers
  import opened BorrowingSchema
  import BorrowingController

  /** The full "new entry" form; `amount` is `Number(input)`, `None` for NaN. */
  datatype EntryForm = EntryForm(
    direction: Direction,
    name: string,
    contact: string,
    amount: Option<int>,
    dueDate: string,
    notes: string,
    reminderEnabled: bool,
    reminderDays: int)

  /** The quick-add form: no direction or reminder fields. */
  datatype QuickForm = QuickForm(name: string, contact: string, amount: Option<int>, dueDate: string, notes: string)

  /** A create body as the page serialises it. */
  datatype CreatePayload = CreatePayload(
    direction: Direction,
    name: string,
    contact: string,
    amount: Option<int>,
    dueDate: Option<string>,
    notes: string,
    reminderEnabled: bool,
    reminderDays: int)

  /** `value || null` on a text input: the empty string becomes null, anything else is kept. */
  function NullIfEmpty(s: string): (r: Option<string>)
    ensures r.None? <==> s == ""
    ensures r.Some? ==> r.value == s
  {
    if s == "" then None else Some(s)
  }

  /** The full form sends every field as entered, an empty due date as null. */
  function EntryPayload(f: EntryForm): (p: CreatePayload)
    ensures p.dueDate.None? <==> f.dueDate == ""
    ensures p.dueDate.Some? ==> p.dueDate.value == f.dueDate
    ensures p.direction == f.direction && p.name == f.name && p.contact == f.contact && p.amount == f.amount
    ensures p.notes == f.notes && p.reminderEnabled == f.reminderEnabled && p.reminderDays == f.reminderDays
  {
    CreatePayload(f.direction, f.name, f.contact, f.amount, NullIfEmpty(f.dueDate), f.notes,
                  f.reminderEnabled, f.reminderDays)
  }

  /** Quick add always records money borrowed, with the reminder off and 0 days. */
  function QuickPayload(q: QuickForm): (p: CreatePayload)
    ensures p.direction == Borrowed && !p.reminderEnabled && p.reminderDays == 0
    ensures p.dueDate.None? <==> q.dueDate == ""
    ensures p.dueDate.Some? ==> p.dueDate.value == q.dueDate
    ensures p.name == q.name && p.contact == q.contact && p.amount == q.amount && p.notes == q.notes
  {
    CreatePayload(Borrowed, q.name, q.contact, q.amount, NullIfEmpty(q.dueDate), q.notes, false, 0)
  }

  /** The body as the create handler reads it; a null due date stays null. */
  function ToRequest(p: CreatePayload, parseDate: string -> BorrowingController.DateInput): BorrowingController.CreateRequest {
    BorrowingController.CreateRequest(
      DirectionName(p.direction),
      Some(BorrowingController.CounterpartyInput(Some(p.name), Some(p.contact))),
      p.amount,
      match p.dueDate case Some(d) => Some(parseDate(d)) case None => None,
      Some(p.notes),
      Some(BorrowingController.ReminderInput(Some(p.reminderEnabled), Some(p.reminderDays))))
  }

  /**
   * A quick-add is stored exactly when the trimmed name is non-empty and the
   * amount is a non-negative number; the stored entry is a pending `borrowed`
   * record with its reminder off and, because 0 is falsy, 3 days before.
   */
  lemma QuickAddStored(st: BorrowingController.Store, owner: UserId, q: QuickForm,
                       parseDate: string -> BorrowingController.DateInput, now: Millis)
    ensures var r := BorrowingController.AddBorrowing(st, owner, ToRequest(QuickPayload(q), parseDate), now);
      && (r.Ok? <==> Trim(q.name) != "" && q.amount.Some? && q.amount.value >= 0
                     && (q.dueDate == "" || parseDate(q.dueDate).Instant?))
      && (r.Ok? ==>
            && r.value.record.direction == Borrowed
            && r.value.record.reminder == Reminder(false, 3)
            && r.value.record.status == Pending
            && r.value.record.remaining == q.amount.value
            && (r.value.record.dueDate.None? <==> q.dueDate == ""))
  {
  }

  /** An empty due date on the full form is stored as no due date. */
  lemma EntryEmptyDueDateStoredNull(st: BorrowingController.Store, owner: UserId, f: EntryForm,
                                    parseDate: string -> BorrowingController.DateInput, now: Millis)
    requires f.dueDate == ""
    ensures var r := BorrowingController.AddBorrowing(st, owner, ToRequest(EntryPayload(f), parseDate), now);
      r.Ok? ==> r.value.record.dueDate.None?
  {
  }

  /** The status the mark-paid / mark-pending button sends: `paid` unless already paid, then `pending`. */
  function ToggleTarget(current: Status): (s: string)
    ensures s == "paid" <==> current != Paid
    ensures s == "pending" <==> current == Paid
  {
    if current != Paid then "paid" else "pending"
  }

  /**
   * Pressing the button on one's own record flips it between `paid` and
   * `pending` (a `partial` entry becomes `paid`) and leaves the balance alone.
   */
  lemma ToggleApplied(st: BorrowingController.Store, owner: UserId, id: Id, now: Millis)
    requires BorrowingController.Owns(st, owner, id)
    ensures var before := st.records[id];
      var r := BorrowingController.UpdateBorrowing(st, owner, id,
                 BorrowingController.StatusPatch(ToggleTarget(before.status)), now);
      && r.Ok?
      && (r.value.record.status == Paid <==> before.status != Paid)
      && (r.value.record.status == Pending <==> before.status == Paid)
      && r.value.record.remaining == before.remaining
  {
  }

  /** The due-date dialog body: an empty input is sent as null. */
  function DueDateBody(input: string, parseDate: string -> BorrowingController.DateInput): (p: BorrowingController.Patch)
    ensures p.payment.None? && p.status.None? && p.dueDate.Some?
    ensures p.dueDate.value.None? <==> input == ""
    ensures input != "" ==> p.dueDate.value == Some(parseDate(input))
  {
    BorrowingController.DueDatePatch(match NullIfEmpty(input) case Some(d) => Some(parseDate(d)) case None => None)
  }

  /** Clearing the due date in the dialog removes it from the record, so the entry cannot be overdue. */
  lemma ClearingDueDateClearsRecord(st: BorrowingController.Store, owner: UserId, id: Id,
                                    parseDate: string -> BorrowingController.DateInput, now: Millis)
    requires BorrowingController.Owns(st, owner, id)
    ensures var r := BorrowingController.UpdateBorrowing(st, owner, id, DueDateBody("", parseDate), now);
      r.Ok? && r.value.record.dueDate.None? && r.value.record.remaining == st.records[id].remaining
  {
  }
}
