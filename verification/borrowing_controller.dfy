/**
 * The borrowing controller: create with defaults, owner-scoped listing newest
 * first, the payment / status / due-date update, and owner-scoped delete, over
 * an immutable store. Every operation returns a new store or an HTTP error;
 * an error leaves the caller's store as it was.
 */
module BorrowingController {
  import opened Wrappers
  import opened BorrowingSchema
  import Seqs

  /** The failures the controller answers with. */
  datatype ApiError = NotFound | BadRequest | ServerError

  function HttpStatus(e: ApiError): int {
    match e
    case NotFound => 404
    case BadRequest => 400
    case ServerError => 500
  }

  /** The persisted collection; `nextId` hands out fresh identifiers. */
  datatype Store = Store(records: map<Id, Record>, nextId: Id)

  const EmptyStore: Store := Store(map[], 0)

  /** Each stored record sits under its own id, below the allocator, and is schema-valid with its balance in range. */
  predicate StoredWell(st: Store, id: Id)
    requires id in st.records
  {
    var r := st.records[id];
    r.id == id && id < st.nextId && SchemaValid(r) && BalanceInRange(r)
  }

  predicate Valid(st: Store) {
    forall id :: id in st.records ==> StoredWell(st, id)
  }

  /** The record exists and belongs to `owner`; anything else reads as "not found". */
  predicate Owns(st: Store, owner: UserId, id: Id) {
    id in st.records && st.records[id].owner == owner
  }

  /** A successful write: the new store and the record as it now stands. */
  datatype Updated = Updated(store: Store, record: Record)

  // ---------------------------------------------------------------- create

  /**
   * What `new Date(value)` gives for a due date in a body: an instant, or an
   * Invalid Date, which the schema's Date cast rejects (the handler answers 500).
   */
  datatype DateInput = Instant(ms: Millis) | InvalidDate

  /** A due-date field the Date cast accepts: null/absent, or a valid instant. */
  predicate CastsDate(d: Option<DateInput>) {
    d.None? || d.value.Instant?
  }

  /** The stored value of a due-date field the cast accepts. */
  function CastDate(d: Option<DateInput>): (m: Option<Millis>)
    requires CastsDate(d)
    ensures m.None? <==> d.None?
    ensures m.Some? ==> d == Some(Instant(m.value))
  {
    match d
    case None => None
    case Some(i) => Some(i.ms)
  }

  datatype CounterpartyInput = CounterpartyInput(name: Option<string>, contact: Option<string>)

  datatype ReminderInput = ReminderInput(enabled: Option<bool>, daysBefore: Option<int>)

  /**
   * A create request body. `amount` is the parsed number (`None` when parsing
   * yields NaN); `dueDate` is `new Date(dueDate)`, `None` for a falsy value.
   */
  datatype CreateRequest = CreateRequest(
    typeName: string,
    counterparty: Option<CounterpartyInput>,
    amount: Option<int>,
    dueDate: Option<DateInput>,
    notes: Option<string>,
    reminder: Option<ReminderInput>)

  /** `reminder?.enabled || false`. */
  function RequestedEnabled(req: CreateRequest): bool {
    req.reminder.Some? && req.reminder.value.enabled == Some(true)
  }

  /** `reminder?.daysBefore || 3`: every falsy value, the number 0 included, becomes 3. */
  function RequestedDaysBefore(req: CreateRequest): (d: int)
    ensures d != 0
    ensures d != DefaultDaysBefore ==>
      req.reminder.Some? && req.reminder.value.daysBefore == Some(d)
    ensures req.reminder.Some? && req.reminder.value.daysBefore.Some? && req.reminder.value.daysBefore.value != 0 ==>
      d == req.reminder.value.daysBefore.value
  {
    match req.reminder
    case None => DefaultDaysBefore
    case Some(ri) =>
      match ri.daysBefore
      case None => DefaultDaysBefore
      case Some(n) => if n == 0 then DefaultDaysBefore else n
  }

  /** What the schema validators accept; anything else is thrown and answered with 500. */
  predicate Admissible(req: CreateRequest) {
    && ParseDirection(req.typeName).Some?
    && req.counterparty.Some?
    && req.counterparty.value.name.Some?
    && Trim(req.counterparty.value.name.value) != ""
    && req.amount.Some?
    && req.amount.value >= 0
    && CastsDate(req.dueDate)
    && RequestedDaysBefore(req) >= 0
  }

  function NewRecord(req: CreateRequest, owner: UserId, id: Id, now: Millis): Record
    requires Admissible(req)
  {
    var cp := req.counterparty.value;
    Record(
      id := id,
      owner := owner,
      direction := ParseDirection(req.typeName).value,
      counterparty := Counterparty(Trim(cp.name.value), Trim(cp.contact.GetOr(""))),
      amount := req.amount.value,
      remaining := req.amount.value,
      dueDate := CastDate(req.dueDate),
      notes := Trim(req.notes.GetOr("")),
      reminder := Reminder(RequestedEnabled(req), RequestedDaysBefore(req)),
      status := Pending,
      createdAt := now,
      updatedAt := now)
  }

  /** Create a record for `owner`; the store allocates the id and `now` is the save time. */
  function AddBorrowing(st: Store, owner: UserId, req: CreateRequest, now: Millis): (r: Result<Updated, ApiError>)
    ensures r.Ok? <==> Admissible(req)
    ensures r.Err? ==> r.error == ServerError
    ensures r.Ok? ==>
      var rec := r.value.record;
      && (Valid(st) ==> rec.id !in st.records)
      && r.value.store.records == st.records[rec.id := rec]
      && r.value.store.nextId > rec.id
      && rec.owner == owner
      && rec.direction == ParseDirection(req.typeName).value
      && rec.counterparty.name == Trim(req.counterparty.value.name.value)
      && (req.counterparty.value.contact.Some? ==> rec.counterparty.contact == Trim(req.counterparty.value.contact.value))
      && rec.amount == req.amount.value
      && rec.remaining == rec.amount
      && (rec.dueDate.None? <==> req.dueDate.None?)
      && (rec.dueDate.Some? ==> req.dueDate == Some(Instant(rec.dueDate.value)))
      && (req.notes.Some? ==> rec.notes == Trim(req.notes.value))
      && rec.reminder == Reminder(RequestedEnabled(req), RequestedDaysBefore(req))
      && rec.status == Pending
      && rec.createdAt == now && rec.updatedAt == now
      && SchemaValid(rec) && BalanceInRange(rec)
  {
    if !Admissible(req) then Err(ServerError)
    else
      var rec := NewRecord(req, owner, st.nextId, now);
      Ok(Updated(Store(st.records[st.nextId := rec], st.nextId + 1), rec))
  }

  /** A valid store never holds a record under the id the allocator hands out next. */
  lemma NextIdIsFresh(st: Store)
    requires Valid(st)
    ensures st.nextId !in st.records
  {
  }

  /** Missing optional fields take the schema and controller defaults. */
  lemma CreateDefaults(st: Store, owner: UserId, req: CreateRequest, now: Millis)
    requires Admissible(req)
    ensures var rec := AddBorrowing(st, owner, req, now).value.record;
      && (req.counterparty.value.contact.None? ==> rec.counterparty.contact == "")
      && (req.notes.None? ==> rec.notes == "")
      && (req.dueDate.None? ==> rec.dueDate.None?)
      && (req.reminder.None? ==> rec.reminder == Reminder(false, 3))
      && (req.reminder.Some? && req.reminder.value.daysBefore == Some(0) ==> rec.reminder.daysBefore == 3)
      && rec.counterparty.name == Trim(req.counterparty.value.name.value)
      && rec.direction == ParseDirection(req.typeName).value
  {
  }

  /** Creating into a valid store gives a valid store. */
  lemma AddPreservesValid(st: Store, owner: UserId, req: CreateRequest, now: Millis)
    requires Valid(st)
    ensures var r := AddBorrowing(st, owner, req, now);
      r.Ok? ==> Valid(r.value.store) && r.value.record.id !in st.records
  {
    var r := AddBorrowing(st, owner, req, now);
    if r.Ok? {
      NextIdIsFresh(st);
      var st' := r.value.store;
      forall id | id in st'.records
        ensures StoredWell(st', id)
      {
        if id != r.value.record.id {
          assert StoredWell(st, id);
        }
      }
    }
  }

  // ---------------------------------------------------------------- list

  /** Newest first: `createdAt` never increases along the sequence. */
  predicate NewestFirst(s: seq<Record>) {
    forall a, b :: 0 <= a < b < |s| ==> s[a].createdAt >= s[b].createdAt
  }

  /** Puts `x` in front of the first record that is not newer than it. */
  function InsertByCreated(x: Record, s: seq<Record>): (r: seq<Record>)
    ensures multiset(r) == multiset(s) + multiset{x}
  {
    if |s| == 0 || x.createdAt >= s[0].createdAt then [x] + s
    else
      assert s == [s[0]] + s[1..];
      [s[0]] + InsertByCreated(x, s[1..])
  }

  /** Inserting into a newest-first sequence keeps it newest first; only `x` can move ahead of the old head. */
  lemma {:induction false} InsertKeepsNewestFirst(x: Record, s: seq<Record>)
    requires NewestFirst(s)
    ensures NewestFirst(InsertByCreated(x, s))
    ensures forall k :: 0 <= k < |InsertByCreated(x, s)| ==>
      InsertByCreated(x, s)[k] == x || (|s| > 0 && InsertByCreated(x, s)[k].createdAt <= s[0].createdAt)
  {
    if |s| > 0 && x.createdAt < s[0].createdAt {
      InsertKeepsNewestFirst(x, s[1..]);
      var t := InsertByCreated(x, s[1..]);
      var r := [s[0]] + t;
      assert InsertByCreated(x, s) == r;
      forall a, b | 0 <= a < b < |r|
        ensures r[a].createdAt >= r[b].createdAt
      {
        assert r[b] == t[b - 1];
        if a > 0 {
          assert r[a] == t[a - 1];
        }
      }
    }
  }

  /** Insertion sort on `createdAt`, descending. */
  function SortNewestFirst(s: seq<Record>): (r: seq<Record>)
    ensures NewestFirst(r)
    ensures multiset(r) == multiset(s)
  {
    if |s| == 0 then []
    else
      assert s == [s[0]] + s[1..];
      var rest := SortNewestFirst(s[1..]);
      InsertKeepsNewestFirst(s[0], rest);
      InsertByCreated(s[0], rest)
  }

  /** The ids in `[i, nextId)` that `owner` owns, ascending. */
  function OwnedIds(st: Store, owner: UserId, i: nat): (ids: seq<Id>)
    ensures forall k :: 0 <= k < |ids| ==> Owns(st, owner, ids[k]) && i <= ids[k] < st.nextId
    ensures forall j :: i <= j < st.nextId && Owns(st, owner, j) ==> j in ids
    ensures forall a, b :: 0 <= a < b < |ids| ==> ids[a] < ids[b]
    decreases st.nextId - i
  {
    if i >= st.nextId then []
    else if Owns(st, owner, i) then [i] + OwnedIds(st, owner, i + 1)
    else OwnedIds(st, owner, i + 1)
  }

  function Lookup(st: Store, ids: seq<Id>): (rs: seq<Record>)
    requires forall k :: 0 <= k < |ids| ==> ids[k] in st.records
    ensures |rs| == |ids|
    ensures forall k :: 0 <= k < |ids| ==> rs[k] == st.records[ids[k]]
  {
    if |ids| == 0 then [] else [st.records[ids[0]]] + Lookup(st, ids[1..])
  }

  /** The owner's records in id order. */
  function OwnedRecords(st: Store, owner: UserId): (rs: seq<Record>)
    requires Valid(st)
    ensures forall k :: 0 <= k < |rs| ==> rs[k].owner == owner && rs[k].id in st.records && st.records[rs[k].id] == rs[k]
    ensures forall id :: Owns(st, owner, id) ==> st.records[id] in rs
    ensures forall a, b :: 0 <= a < b < |rs| ==> rs[a].id < rs[b].id
  {
    var ids := OwnedIds(st, owner, 0);
    var rs := Lookup(st, ids);
    assert forall k :: 0 <= k < |ids| ==> rs[k].id == ids[k] by {
      forall k | 0 <= k < |ids| ensures rs[k].id == ids[k] {
        assert StoredWell(st, ids[k]);
      }
    }
    assert forall id :: Owns(st, owner, id) ==> st.records[id] in rs by {
      forall id | Owns(st, owner, id)
        ensures st.records[id] in rs
      {
        assert StoredWell(st, id);
        var k :| 0 <= k < |ids| && ids[k] == id;
        assert rs[k] == st.records[id];
      }
    }
    rs
  }

  /** Records with pairwise different ids are pairwise different, and a rearrangement keeps the ids apart. */
  lemma DistinctIdsPermutation(a: seq<Record>, b: seq<Record>)
    requires forall i, j :: 0 <= i < j < |a| ==> a[i].id < a[j].id
    requires multiset(a) == multiset(b)
    ensures forall i, j :: 0 <= i < j < |b| ==> b[i].id != b[j].id
  {
    assert Seqs.Distinct(a);
    Seqs.DistinctPermutation(a, b);
    forall i, j | 0 <= i < j < |b|
      ensures b[i].id != b[j].id
    {
      assert b[i] in multiset(a) && b[j] in multiset(a);
      var ki :| 0 <= ki < |a| && a[ki] == b[i];
      var kj :| 0 <= kj < |a| && a[kj] == b[j];
      assert ki != kj;
    }
  }

  /**
   * The caller's records, newest first: exactly the records `owner` owns,
   * each once, as stored.
   */
  function GetBorrowings(st: Store, owner: UserId): (r: seq<Record>)
    requires Valid(st)
    ensures NewestFirst(r)
    ensures forall k :: 0 <= k < |r| ==>
      r[k].owner == owner && r[k].id in st.records && st.records[r[k].id] == r[k]
    ensures forall id :: Owns(st, owner, id) ==> st.records[id] in r
    ensures forall a, b :: 0 <= a < b < |r| ==> r[a].id != r[b].id
  {
    var found := OwnedRecords(st, owner);
    var r := SortNewestFirst(found);
    DistinctIdsPermutation(found, r);
    Seqs.PermutationSameMembers(found, r);
    r
  }

  // ---------------------------------------------------------------- update

  /**
   * A patch body restricted to the three fields the client sends. `payment`
   * is `None` for an absent or non-numeric value; `status` is the raw string;
   * `dueDate` is `None` when absent and `Some(None)` for an explicit null.
   */
  datatype Patch = Patch(payment: Option<int>, status: Option<string>, dueDate: Option<Option<DateInput>>)

  function PaymentPatch(payment: Option<int>): Patch { Patch(payment, None, None) }
  function StatusPatch(status: string): Patch { Patch(None, Some(status), None) }
  function DueDatePatch(due: Option<DateInput>): Patch { Patch(None, None, Some(due)) }

  /** The payment branch runs only for a truthy number: absent, non-numeric and 0 skip it. */
  predicate Pays(patch: Patch) {
    patch.payment.Some? && patch.payment.value != 0
  }

  /**
   * What the update's casts and validators accept: a due date the Date cast
   * takes and, unless the payment branch replaces it, a status name in the enum.
   */
  predicate Castable(patch: Patch) {
    && (patch.dueDate.None? || CastsDate(patch.dueDate.value))
    && (Pays(patch) || patch.status.None? || ParseStatus(patch.status.value).Some?)
  }

  /** The due-date write of a castable patch: none when absent, else the cast value. */
  function DueDateWrite(patch: Patch): Option<Option<Millis>>
    requires Castable(patch)
  {
    match patch.dueDate
    case None => None
    case Some(d) => Some(CastDate(d))
  }

  /** `Math.max(0, remaining - payment)` and the status it implies. */
  function Settle(remaining: int, payment: int): (r: (int, Status))
    requires payment > 0
    ensures r.0 >= 0
    ensures remaining >= 0 ==> r.0 <= remaining
    ensures r.0 == 0 <==> payment >= remaining
    ensures r.0 != 0 ==> r.0 == remaining - payment
    ensures r.1 == Paid <==> r.0 == 0
    ensures r.1 != Pending
  {
    var left := if remaining - payment > 0 then remaining - payment else 0;
    (left, if left <= 0 then Paid else Partial)
  }

  /** Write the given fields onto record `id`, stamping `updatedAt`. */
  function Commit(st: Store, id: Id, remaining: Option<int>, status: Option<Status>,
                  dueDate: Option<Option<Millis>>, now: Millis): (u: Updated)
    requires id in st.records
    ensures u.store == Store(st.records[id := u.record], st.nextId)
  {
    var old_ := st.records[id];
    var rec := old_.(
      remaining := remaining.GetOr(old_.remaining),
      status := status.GetOr(old_.status),
      dueDate := dueDate.GetOr(old_.dueDate),
      updatedAt := now);
    Updated(Store(st.records[id := rec], st.nextId), rec)
  }

  /**
   * Apply a patch to the caller's record. The payment branch looks the record
   * up first (404), then rejects a negative amount (400), and its computed
   * status replaces any status in the body. A due date that is an Invalid
   * Date, or an unknown status name outside the payment branch, fails the
   * cast or the update validator (500) before the owner-scoped lookup (404).
   */
  function UpdateBorrowing(st: Store, owner: UserId, id: Id, patch: Patch, now: Millis): (r: Result<Updated, ApiError>)
    ensures r.Ok? <==> Owns(st, owner, id) && Castable(patch) && !(Pays(patch) && patch.payment.value < 0)
    ensures !Owns(st, owner, id) && (Pays(patch) || Castable(patch)) ==> r == Err(NotFound)
    ensures Owns(st, owner, id) && Pays(patch) && patch.payment.value < 0 ==> r == Err(BadRequest)
    ensures Owns(st, owner, id) && !Castable(patch) && !(Pays(patch) && patch.payment.value < 0) ==> r == Err(ServerError)
    ensures r.Ok? ==>
      var old_ := st.records[id];
      var rec := r.value.record;
      && r.value.store == Store(st.records[id := rec], st.nextId)
      && rec == old_.(remaining := rec.remaining, status := rec.status, dueDate := rec.dueDate, updatedAt := now)
      && (patch.dueDate.Some? ==> rec.dueDate == CastDate(patch.dueDate.value))
      && (patch.dueDate.None? ==> rec.dueDate == old_.dueDate)
      && (!Pays(patch) ==> rec.remaining == old_.remaining)
      && (!Pays(patch) && patch.status.None? ==> rec.status == old_.status)
      && (!Pays(patch) && patch.status.Some? ==> StatusName(rec.status) == patch.status.value)
  {
    if Pays(patch) && !Owns(st, owner, id) then Err(NotFound)
    else if Pays(patch) && patch.payment.value < 0 then Err(BadRequest)
    else if !Castable(patch) then Err(ServerError)
    else if Pays(patch) then
      var settled := Settle(st.records[id].remaining, patch.payment.value);
      Ok(Commit(st, id, Some(settled.0), Some(settled.1), DueDateWrite(patch), now))
    else if !Owns(st, owner, id) then Err(NotFound)
    else
      var status := if patch.status.Some? then ParseStatus(patch.status.value) else None;
      Ok(Commit(st, id, None, status, DueDateWrite(patch), now))
  }

  /**
   * A positive payment on the caller's record succeeds unless the body also
   * carries an Invalid Date: the balance drops by the payment, clamped at 0,
   * never rises, and the status is `paid` exactly when nothing is left and
   * `partial` otherwise, whatever status the body carried.
   */
  lemma PaymentSettles(st: Store, owner: UserId, id: Id, patch: Patch, now: Millis)
    requires Valid(st) && Owns(st, owner, id)
    requires patch.payment.Some? && patch.payment.value > 0
    ensures var r := UpdateBorrowing(st, owner, id, patch, now);
      var before := st.records[id].remaining;
      var p := patch.payment.value;
      && (r.Ok? <==> patch.dueDate.None? || CastsDate(patch.dueDate.value))
      && (r.Ok? ==>
            && 0 <= r.value.record.remaining <= before
            && (p >= before ==> r.value.record.remaining == 0)
            && (p < before ==> r.value.record.remaining == before - p)
            && (r.value.record.status == Paid <==> r.value.record.remaining == 0)
            && (r.value.record.status == Partial <==> r.value.record.remaining > 0)
            && BalanceInRange(r.value.record))
  {
    assert StoredWell(st, id);
  }

  /** A negative payment on an existing record of the caller is rejected with 400. */
  lemma NegativePaymentRejected(st: Store, owner: UserId, id: Id, patch: Patch, now: Millis)
    requires Owns(st, owner, id)
    requires patch.payment.Some? && patch.payment.value < 0
    ensures UpdateBorrowing(st, owner, id, patch, now) == Err(BadRequest)
  {
  }

  /** A payment of 0 or a non-numeric payment is no payment: the record only gets a new `updatedAt`. */
  lemma ZeroPaymentIgnored(st: Store, owner: UserId, id: Id, payment: Option<int>, now: Millis)
    requires Owns(st, owner, id)
    requires payment.None? || payment == Some(0)
    ensures UpdateBorrowing(st, owner, id, PaymentPatch(payment), now).Ok?
    ensures UpdateBorrowing(st, owner, id, PaymentPatch(payment), now).value.record
            == st.records[id].(updatedAt := now)
  {
  }

  /**
   * A manual status change sets only the status: the balance is not touched,
   * so a `paid` record can still carry a positive balance.
   */
  lemma StatusPatchKeepsBalance(st: Store, owner: UserId, id: Id, status: Status, now: Millis)
    requires Owns(st, owner, id)
    ensures var r := UpdateBorrowing(st, owner, id, StatusPatch(StatusName(status)), now);
      r.Ok? && r.value.record == st.records[id].(status := status, updatedAt := now)
  {
  }

  /** A due-date change (null clears it) sets only the due date; an Invalid Date is 500. */
  lemma DueDatePatchSetsDueDate(st: Store, owner: UserId, id: Id, due: Option<DateInput>, now: Millis)
    requires Owns(st, owner, id)
    ensures var r := UpdateBorrowing(st, owner, id, DueDatePatch(due), now);
      && (CastsDate(due) ==> r.Ok? && r.value.record == st.records[id].(dueDate := CastDate(due), updatedAt := now))
      && (!CastsDate(due) ==> r == Err(ServerError))
  {
  }

  /** Every update the model admits keeps the store valid and never raises a balance. */
  lemma UpdatePreservesValid(st: Store, owner: UserId, id: Id, patch: Patch, now: Millis)
    requires Valid(st)
    ensures var r := UpdateBorrowing(st, owner, id, patch, now);
      r.Ok? ==> Valid(r.value.store) && r.value.record.remaining <= st.records[id].remaining
  {
    var r := UpdateBorrowing(st, owner, id, patch, now);
    if r.Ok? {
      assert StoredWell(st, id);
      var st' := r.value.store;
      forall k | k in st'.records
        ensures StoredWell(st', k)
      {
        if k != id {
          assert StoredWell(st, k);
        }
      }
    }
  }

  // ---------------------------------------------------------------- delete

  /** Remove the caller's record; an absent or foreign id is 404 and nothing changes. */
  function DeleteBorrowing(st: Store, owner: UserId, id: Id): (r: Result<Store, ApiError>)
    ensures r.Ok? <==> Owns(st, owner, id)
    ensures r.Err? ==> r.error == NotFound
    ensures r.Ok? ==>
      && r.value.records.Keys == st.records.Keys - {id}
      && r.value.nextId == st.nextId
      && forall k :: k in r.value.records ==> r.value.records[k] == st.records[k]
  {
    if Owns(st, owner, id) then Ok(Store(st.records - {id}, st.nextId)) else Err(NotFound)
  }

  /** Deleting twice: the first succeeds, the second is 404. */
  lemma DeleteTwiceNotFound(st: Store, owner: UserId, id: Id)
    requires Owns(st, owner, id)
    ensures DeleteBorrowing(st, owner, id).Ok?
    ensures DeleteBorrowing(DeleteBorrowing(st, owner, id).value, owner, id) == Err(NotFound)
  {
  }

  lemma DeletePreservesValid(st: Store, owner: UserId, id: Id)
    requires Valid(st)
    ensures var r := DeleteBorrowing(st, owner, id);
      r.Ok? ==> Valid(r.value)
  {
    var r := DeleteBorrowing(st, owner, id);
    if r.Ok? {
      forall k | k in r.value.records
        ensures StoredWell(r.value, k)
      {
        assert StoredWell(st, k);
      }
    }
  }

  // ---------------------------------------------------------------- histories

  /** One request against the store. */
  datatype Op =
    | Create(owner: UserId, req: CreateRequest, now: Millis)
    | Update(owner: UserId, id: Id, patch: Patch, now: Millis)
    | Delete(owner: UserId, id: Id)

  /** The store after one request; a failed request leaves it as it was. */
  function Step(st: Store, op: Op): Store {
    match op
    case Create(owner, req, now) =>
      (match AddBorrowing(st, owner, req, now) case Ok(u) => u.store case Err(_) => st)
    case Update(owner, id, patch, now) =>
      (match UpdateBorrowing(st, owner, id, patch, now) case Ok(u) => u.store case Err(_) => st)
    case Delete(owner, id) =>
      (match DeleteBorrowing(st, owner, id) case Ok(st') => st' case Err(_) => st)
  }

  function Replay(st: Store, ops: seq<Op>): Store
    decreases |ops|
  {
    if |ops| == 0 then st else Replay(Step(st, ops[0]), ops[1..])
  }

  /** For all records at all times: schema-valid and `0 <= remaining <= amount`. */
  lemma {:induction false} ReplayPreservesValid(st: Store, ops: seq<Op>)
    requires Valid(st)
    ensures Valid(Replay(st, ops))
    decreases |ops|
  {
    if |ops| > 0 {
      match ops[0] {
        case Create(owner, req, now) => AddPreservesValid(st, owner, req, now);
        case Update(owner, id, patch, now) => UpdatePreservesValid(st, owner, id, patch, now);
        case Delete(owner, id) => DeletePreservesValid(st, owner, id);
      }
      ReplayPreservesValid(Step(st, ops[0]), ops[1..]);
    }
  }

  /** The allocator only moves forward, and a removed id never comes back. */
  lemma {:induction false} ReplayNoResurrection(st: Store, ops: seq<Op>, id: Id)
    requires id < st.nextId && id !in st.records
    ensures id !in Replay(st, ops).records
    decreases |ops|
  {
    if |ops| > 0 {
      ReplayNoResurrection(Step(st, ops[0]), ops[1..], id);
    }
  }

  /** Over any history, a record that survives never has a larger balance than it started with. */
  lemma {:induction false} ReplayNeverRaisesBalance(st: Store, ops: seq<Op>, id: Id)
    requires Valid(st) && id in st.records && id in Replay(st, ops).records
    ensures Replay(st, ops).records[id].remaining <= st.records[id].remaining
    decreases |ops|
  {
    if |ops| > 0 {
      var st1 := Step(st, ops[0]);
      assert StoredWell(st, id);
      match ops[0] {
        case Create(owner, req, now) => AddPreservesValid(st, owner, req, now);
        case Update(owner, u, patch, now) => UpdatePreservesValid(st, owner, u, patch, now);
        case Delete(owner, d) => DeletePreservesValid(st, owner, d);
      }
      if id in st1.records {
        ReplayNeverRaisesBalance(st1, ops[1..], id);
      } else {
        ReplayNoResurrection(st1, ops[1..], id);
      }
    }
  }

  // ---------------------------------------------------------------- a worked history

  /**
   * Lend-and-settle on a fresh store: 1000 borrowed, 400 paid leaves 600
   * `partial`; paying 600 or overpaying 1500 both leave 0 `paid`; marking the
   * 600 entry `paid` by hand keeps the 600 balance; another user gets 404.
   */
  lemma SettlementScenario(owner: UserId, now: Millis, name: string)
    requires IsTrimmed(name) && name != ""
    ensures var req := CreateRequest("borrowed", Some(CounterpartyInput(Some(name), None)), Some(1000), None, None, None);
      var c := AddBorrowing(EmptyStore, owner, req, now);
      && c.Ok?
      && c.value.record == Record(0, owner, Borrowed, Counterparty(name, ""), 1000, 1000, None, "",
                                  Reminder(false, 3), Pending, now, now)
      && var p1 := UpdateBorrowing(c.value.store, owner, 0, PaymentPatch(Some(400)), now);
      && p1.Ok? && p1.value.record.remaining == 600 && p1.value.record.status == Partial
      && var exact := UpdateBorrowing(p1.value.store, owner, 0, PaymentPatch(Some(600)), now);
      && exact.Ok? && exact.value.record.remaining == 0 && exact.value.record.status == Paid
      && var over := UpdateBorrowing(p1.value.store, owner, 0, PaymentPatch(Some(1500)), now);
      && over.Ok? && over.value.record.remaining == 0 && over.value.record.status == Paid
      && var manual := UpdateBorrowing(p1.value.store, owner, 0, StatusPatch("paid"), now);
      && manual.Ok? && manual.value.record.remaining == 600 && manual.value.record.status == Paid
      && UpdateBorrowing(p1.value.store, owner + 1, 0, PaymentPatch(Some(400)), now) == Err(NotFound)
  {
    TrimOfTrimmed(name);
    assert Trim("") == "";
    var req := CreateRequest("borrowed", Some(CounterpartyInput(Some(name), None)), Some(1000), None, None, None);
    var c := AddBorrowing(EmptyStore, owner, req, now);
    assert c.Ok?;
    var st1 := c.value.store;
    assert c.value.record.id == 0 && Owns(st1, owner, 0);
    var p1 := UpdateBorrowing(st1, owner, 0, PaymentPatch(Some(400)), now);
    assert p1.Ok? && p1.value.record.remaining == 600;
    var st2 := p1.value.store;
    assert Owns(st2, owner, 0) && st2.records[0].remaining == 600;
  }
}
