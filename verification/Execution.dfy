/** Executing the recommendations of a finalized close (`services_settlement_execution.py`): accept,
    apply, reconcile, cancel, reverse and apply-all as atomic steps over recommendations and ledger. */
module Execution {
  import opened Money
  import opened Wrappers

  // ---- State -------------------------------------------------------------------------------------------

  datatype Status = Recommended | Accepted | Applied | PartiallyApplied | Cancelled

  /** A recommendation; `from` and `to` are the ledger accounts of its two settlement accounts. */
  datatype Rec = Rec(close: int, from: int, to: int, ownership: Option<int>, amount: int, applied: int, accepted: bool, status: Status)

  /** An idempotency key: what a client sent, or one of the keys the program composes itself. */
  datatype Key = Text(text: string) | Full(rec: int) | ReverseFull(rec: int) | Reconciles(rec: int, tx: int)

  datatype Action = Application | Reconciliation | Reversal

  /** A blank key is None. */
  datatype Link = Link(rec: int, key: Option<Key>, action: Action, amount: int)

  datatype Entry = Entry(account: int, debit: bool, amount: int)

  datatype Tx = Tx(date: int, transfer: bool, posted: bool, ownership: Option<int>, entries: seq<Entry>, link: Option<Link>)

  datatype CloseStatus = Draft | Finalized | Locked

  /** A close with its settlement snapshot; transfers dated in the window can be reconciled. */
  datatype Close = Close(status: CloseStatus, ready: bool, frozen: bool, windowStart: int, windowEnd: int)

  /** A ledger transaction is identified by its position; execution steps never delete one.  `order`
      lists the recommendations in sort order, `usable` the active asset accounts of the right currency. */
  datatype Desk = Desk(recs: map<int, Rec>, order: seq<int>, ledger: seq<Tx>, closes: map<int, Close>, usable: set<int>)

  datatype Reason = NotFound | CloseLocked | CloseNotFinalized | NotReady | NotFrozen | IsCancelled | KeyTaken | BadAmount
                  | KeyRequired | KeyTooLong | BadAccount | Incompatible | AlreadyApplied

  datatype Outcome = Done | Replayed | Rejected(reason: Reason)

  datatype Op =
    | Accept(close: int, rec: int)
    | Apply(close: int, rec: int, date: int, amount: Option<int>, key: Option<Key>)
    | Reconcile(close: int, rec: int, tx: nat)
    | Cancel(close: int, rec: int)
    | Reverse(close: int, rec: int, date: int, amount: Option<int>, key: Option<Key>)
    | ApplyAll(close: int, date: int)

  // ---- Helpers -----------------------------------------------------------------------------------------

  /** This module quantises with the default rounding: a tie goes to the even cent. */
  function ToCentsEven(u: int): (c: int)
    ensures IsCents(c) && 2 * Abs(c - u) <= CENT
    ensures IsCents(u) ==> c == u
  {
    var q := u / CENT;
    var r := u % CENT;
    if 2 * r < CENT || (2 * r == CENT && q % 2 == 0) then q * CENT else (q + 1) * CENT
  }

  /** It agrees with the rounding away from zero used elsewhere except on ties that have to go back to zero
      to reach an even cent; half a cent is one. */
  lemma RoundingsAgree(u: int)
    ensures ToCentsEven(u) == ToCents(u)
            <==> !(2 * (u % CENT) == CENT && (if u >= 0 then (u / CENT) % 2 == 0 else (u / CENT) % 2 != 0))
    ensures ToCentsEven(CENT / 2) == 0 && ToCents(CENT / 2) == CENT
  {
    var q, r := u / CENT, u % CENT;
    assert u == q * CENT + r;
    RoundHalfUpIsNearest(u, CENT, q);
    RoundHalfUpIsNearest(u, CENT, q + 1);
    RoundHalfUpIsNearest(CENT / 2, CENT, 1);
    hide RoundHalfUp;
  }

  function RemainingOf(r: Rec): int { ToCentsEven(r.amount - r.applied) }

  /** `_set_execution_status`. */
  function StatusOf(applied: int, amount: int, accepted: bool): Status {
    if applied >= amount then Applied
    else if applied > 0 then PartiallyApplied
    else if accepted then Accepted
    else Recommended
  }

  function Restated(r: Rec): Rec {
    r.(status := StatusOf(ToCentsEven(r.applied), ToCentsEven(r.amount), r.accepted))
  }

  function KeyOf(tx: Tx): Option<Key> { if tx.link.Some? then tx.link.value.key else None }

  /** The first transaction carrying a key; a blank key is carried by every transaction without one. */
  function FindKey(ledger: seq<Tx>, key: Option<Key>, n: nat): (found: Option<nat>)
    requires n <= |ledger|
    ensures found.Some? ==> found.value < n && KeyOf(ledger[found.value]) == key
    ensures found.None? ==> forall i :: 0 <= i < n ==> KeyOf(ledger[i]) != key
  {
    if n == 0 then None else
    var before := FindKey(ledger, key, n - 1);
    if before.Some? then before else if KeyOf(ledger[n - 1]) == key then Some(n - 1) else None
  }

  /** What an earlier use of a key means for a recommendation. */
  function Earlier(d: Desk, key: Option<Key>, rec: int): Option<Outcome> {
    var found := FindKey(d.ledger, key, |d.ledger|);
    if found.None? then None else
    var link := d.ledger[found.value].link;
    if link.Some? && link.value.rec == rec then Some(Replayed) else Some(Rejected(KeyTaken))
  }

  function TooLong(key: Option<Key>): bool { key.Some? && key.value.Text? && |key.value.text| > 128 }

  /** `_locked_recommendation` and `_validate_execution_state`. */
  function Guard(d: Desk, close: int, rec: int): Option<Reason> {
    if rec !in d.recs || d.recs[rec].close != close || close !in d.closes then Some(NotFound)
    else
      var c := d.closes[close];
      if c.status.Locked? then Some(CloseLocked)
      else if !c.status.Finalized? then Some(CloseNotFinalized)
      else if !c.ready then Some(NotReady)
      else if !c.frozen then Some(NotFrozen)
      else if d.recs[rec].status.Cancelled? then Some(IsCancelled)
      else None
  }

  /** The transfer `create_quick_transaction` posts: debit the destination, credit the source. */
  function TransferEntries(source: int, destination: int, amount: int): seq<Entry> {
    [Entry(destination, true, amount), Entry(source, false, amount)]
  }

  function Posting(date: int, r: Rec, source: int, destination: int, amount: int, link: Link): Tx {
    Tx(date, true, true, r.ownership, TransferEntries(source, destination, amount), Some(link))
  }

  // ---- Accept, cancel ------------------------------------------------------------------------------------

  function AcceptStep(d: Desk, close: int, rec: int): (Desk, Outcome) {
    var bad := Guard(d, close, rec);
    if bad.Some? then (d, Rejected(bad.value)) else
    (d.(recs := d.recs[rec := Restated(d.recs[rec].(accepted := true))]), Done)
  }

  function CancelStep(d: Desk, close: int, rec: int): (Desk, Outcome) {
    var bad := Guard(d, close, rec);
    if bad.Some? then (d, Rejected(bad.value))
    else if d.recs[rec].applied > 0 then (d, Rejected(AlreadyApplied))
    else (d.(recs := d.recs[rec := d.recs[rec].(status := Cancelled)]), Done)
  }

  // ---- Apply -----------------------------------------------------------------------------------------------

  /** The recommendation after `amount` more has been applied. */
  function Increased(r: Rec, amount: int): Rec {
    Restated(r.(applied := ToCentsEven(r.applied + amount), accepted := true))
  }

  function ApplyStep(d: Desk, close: int, rec: int, date: int, amount: Option<int>, key: Option<Key>): (Desk, Outcome) {
    var bad := Guard(d, close, rec);
    if bad.Some? then (d, Rejected(bad.value)) else
    var r := d.recs[rec];
    var provisional := if key.None? && amount.None? then Some(Full(rec)) else key;
    var earlier := if provisional.Some? then Earlier(d, provisional, rec) else None;
    if earlier.Some? then (d, earlier.value) else
    var available := RemainingOf(r);
    var applied := ToCentsEven(if amount.None? then available else amount.value);
    if applied <= 0 || applied > available then (d, Rejected(BadAmount))
    else if key.None? && applied < available then (d, Rejected(KeyRequired))
    else if TooLong(key) then (d, Rejected(KeyTooLong))
    else
      var used := if key.None? then Some(Full(rec)) else key;
      var again := Earlier(d, used, rec);
      if again.Some? then (d, again.value)
      else if r.from !in d.usable || r.to !in d.usable then (d, Rejected(BadAccount))
      else
        (d.(recs := d.recs[rec := Increased(r, applied)],
            ledger := d.ledger + [Posting(date, r, r.from, r.to, applied, Link(rec, used, Application, applied))]),
         Done)
  }

  // ---- Reconcile ---------------------------------------------------------------------------------------------

  /** What a transaction takes out of, or brings into, an account on one side only. */
  function SideTotal(entries: seq<Entry>, account: int, debit: bool, n: nat): int
    requires n <= |entries|
  {
    if n == 0 then 0 else
    SideTotal(entries, account, debit, n - 1)
    + if entries[n - 1].account == account && entries[n - 1].debit == debit then entries[n - 1].amount else 0
  }

  /** `_matching_transfer_amount`. */
  function Matching(tx: Tx, source: int, destination: int): Option<int> {
    var out := SideTotal(tx.entries, source, false, |tx.entries|);
    var into := SideTotal(tx.entries, destination, true, |tx.entries|);
    if out <= 0 || ToCentsEven(out) != ToCentsEven(into) then None else Some(ToCentsEven(out))
  }

  predicate Touches(tx: Tx, account: int) { exists i :: 0 <= i < |tx.entries| && tx.entries[i].account == account }

  predicate Candidate(d: Desk, r: Rec, tx: Tx)
    requires r.close in d.closes
  {
    var c := d.closes[r.close];
    && tx.posted && tx.transfer && c.windowStart <= tx.date <= c.windowEnd && tx.link.None?
    && Touches(tx, r.from) && Touches(tx, r.to)
    && Matching(tx, r.from, r.to).Some? && Matching(tx, r.from, r.to).value <= RemainingOf(r)
    && tx.ownership == r.ownership
  }

  function ReconcileStep(d: Desk, close: int, rec: int, tx: nat): (Desk, Outcome) {
    var bad := Guard(d, close, rec);
    if bad.Some? then (d, Rejected(bad.value)) else
    var r := d.recs[rec];
    if r.from !in d.usable || r.to !in d.usable then (d, Rejected(BadAccount))
    else if tx >= |d.ledger| || !Candidate(d, r, d.ledger[tx]) then (d, Rejected(Incompatible))
    else
      var amount := Matching(d.ledger[tx], r.from, r.to).value;
      var key := Some(Reconciles(rec, tx));
      if Earlier(d, key, rec).Some? then (d, Rejected(KeyTaken)) else
      (d.(recs := d.recs[rec := Increased(r, amount)],
          ledger := d.ledger[tx := d.ledger[tx].(link := Some(Link(rec, key, Reconciliation, amount)))]),
       Done)
  }

  // ---- Reverse -----------------------------------------------------------------------------------------------

  function Decreased(r: Rec, amount: int): Rec { Restated(r.(applied := ToCentsEven(r.applied - amount))) }

  function ReverseStep(d: Desk, close: int, rec: int, date: int, amount: Option<int>, key: Option<Key>): (Desk, Outcome) {
    var bad := Guard(d, close, rec);
    if bad.Some? then (d, Rejected(bad.value)) else
    var r := d.recs[rec];
    var used := if key.None? && amount.None? then Some(ReverseFull(rec)) else key;
    if TooLong(used) then (d, Rejected(KeyTooLong)) else
    var earlier := if used.Some? then Earlier(d, used, rec) else None;
    if earlier.Some? then (d, earlier.value) else
    var available := ToCentsEven(r.applied);
    var reversed := ToCentsEven(if amount.None? then available else amount.value);
    if reversed <= 0 || reversed > available then (d, Rejected(BadAmount)) else
    var again := Earlier(d, used, rec);
    if again.Some? then (d, again.value)
    else if r.from !in d.usable || r.to !in d.usable then (d, Rejected(BadAccount))
    else
      (d.(recs := d.recs[rec := Decreased(r, reversed)],
          ledger := d.ledger + [Posting(date, r, r.to, r.from, reversed, Link(rec, used, Reversal, reversed))]),
       Done)
  }

  // ---- Apply all ---------------------------------------------------------------------------------------------

  /** Applies the recommendations of the close that were not cancelled at the start, in order; the first
      rejection undoes the whole request. */
  function ApplyEach(start: Desk, close: int, date: int, n: nat): Result<Desk, Reason>
    requires n <= |start.order|
  {
    if n == 0 then Ok(start) else
    var before := ApplyEach(start, close, date, n - 1);
    var rec := start.order[n - 1];
    if before.Err? || !Listed(start, close, rec) then before else
    if rec in before.value.recs && RemainingOf(before.value.recs[rec]) <= 0 then before else
    var (after, outcome) := ApplyStep(before.value, close, rec, date, None, None);
    if outcome.Rejected? then Err(outcome.reason) else Ok(after)
  }

  predicate Listed(d: Desk, close: int, rec: int) {
    rec in d.recs && d.recs[rec].close == close && !d.recs[rec].status.Cancelled?
  }

  function ApplyAllStep(d: Desk, close: int, date: int): (Desk, Outcome) {
    if close !in d.closes then (d, Rejected(NotFound))
    else if d.closes[close].status.Locked? then (d, Rejected(CloseLocked))
    else if !d.closes[close].status.Finalized? then (d, Rejected(CloseNotFinalized))
    else
      match ApplyEach(d, close, date, |d.order|)
      case Ok(after) => (after, Done)
      case Err(reason) => (d, Rejected(reason))
  }

  function Step(d: Desk, op: Op): (Desk, Outcome) {
    match op
    case Accept(close, rec) => AcceptStep(d, close, rec)
    case Apply(close, rec, date, amount, key) => ApplyStep(d, close, rec, date, amount, key)
    case Reconcile(close, rec, tx) => ReconcileStep(d, close, rec, tx)
    case Cancel(close, rec) => CancelStep(d, close, rec)
    case Reverse(close, rec, date, amount, key) => ReverseStep(d, close, rec, date, amount, key)
    case ApplyAll(close, date) => ApplyAllStep(d, close, date)
  }

  /** The desk after the first n requests. */
  function Run(d: Desk, ops: seq<Op>, n: nat): Desk
    requires n <= |ops|
  {
    if n == 0 then d else Step(Run(d, ops, n - 1), ops[n - 1]).0
  }

  // ---- The invariant -------------------------------------------------------------------------------------------

  function Signed(link: Link): int { if link.action.Reversal? then -link.amount else link.amount }

  /** Net amount of the transactions linked to a recommendation. */
  function LinkedSum(ledger: seq<Tx>, rec: int, n: nat): int
    requires n <= |ledger|
  {
    if n == 0 then 0 else
    var link := ledger[n - 1].link;
    LinkedSum(ledger, rec, n - 1) + if link.Some? && link.value.rec == rec then Signed(link.value) else 0
  }

  ghost predicate RecOk(ledger: seq<Tx>, rec: int, r: Rec) {
    && r.amount > 0 && IsCents(r.amount) && IsCents(r.applied) && r.from != r.to
    && 0 <= r.applied <= r.amount
    && r.applied == LinkedSum(ledger, rec, |ledger|)
    && (r.status == StatusOf(r.applied, r.amount, r.accepted) || (r.status == Cancelled && r.applied == 0))
  }

  ghost predicate KeysUnique(ledger: seq<Tx>) {
    forall i, j :: 0 <= i < j < |ledger| && KeyOf(ledger[i]).Some? ==> KeyOf(ledger[i]) != KeyOf(ledger[j])
  }

  /** A linked transaction is a posted transfer of its amount between the accounts of its recommendation. */
  ghost predicate LinkOk(recs: map<int, Rec>, tx: Tx) {
    tx.link.Some? ==>
      var link := tx.link.value;
      && link.rec in recs && link.amount >= 0 && IsCents(link.amount) && tx.posted && tx.transfer
      && var r := recs[link.rec];
         match link.action
         case Application => tx.entries == TransferEntries(r.from, r.to, link.amount)
         case Reversal => tx.entries == TransferEntries(r.to, r.from, link.amount)
         case Reconciliation => Matching(tx, r.from, r.to) == Some(link.amount) && Touches(tx, r.from) && Touches(tx, r.to)
  }

  ghost predicate Inv(d: Desk) {
    && (forall rec :: rec in d.recs ==> RecOk(d.ledger, rec, d.recs[rec]))
    && KeysUnique(d.ledger)
    && (forall i :: 0 <= i < |d.ledger| ==> LinkOk(d.recs, d.ledger[i]))
  }

  /** The recommendations keep everything but applied amount, acceptance and status. */
  predicate SameTerms(r: Rec, q: Rec) {
    r.close == q.close && r.from == q.from && r.to == q.to && r.ownership == q.ownership && r.amount == q.amount
  }

  lemma LinkStaysOk(recs: map<int, Rec>, rec: int, q: Rec, tx: Tx)
    requires rec in recs && SameTerms(recs[rec], q) && LinkOk(recs, tx)
    ensures LinkOk(recs[rec := q], tx)
  {
    hide Matching;
  }

  lemma {:induction false} LinkedSumAppended(ledger: seq<Tx>, tx: Tx, rec: int, n: nat)
    requires n <= |ledger|
    ensures LinkedSum(ledger + [tx], rec, n) == LinkedSum(ledger, rec, n)
  {
    if n > 0 { LinkedSumAppended(ledger, tx, rec, n - 1); }
  }

  lemma {:induction false} LinkedSumLinked(ledger: seq<Tx>, i: nat, tx: Tx, rec: int, n: nat)
    requires i < |ledger| && n <= |ledger| && ledger[i].link.None? && tx.link.Some?
    ensures LinkedSum(ledger[i := tx], rec, n)
            == LinkedSum(ledger, rec, n) + if i < n && tx.link.value.rec == rec then Signed(tx.link.value) else 0
  {
    if n > 0 { LinkedSumLinked(ledger, i, tx, rec, n - 1); }
  }

  /** A step that only restates one recommendation. */
  lemma InvRestated(d: Desk, rec: int, q: Rec)
    requires Inv(d) && rec in d.recs && SameTerms(d.recs[rec], q) && q.applied == d.recs[rec].applied
    requires q.status == StatusOf(q.applied, q.amount, q.accepted) || (q.status == Cancelled && q.applied == 0)
    ensures Inv(d.(recs := d.recs[rec := q]))
  {
    forall i | 0 <= i < |d.ledger| ensures LinkOk(d.recs[rec := q], d.ledger[i]) {
      LinkStaysOk(d.recs, rec, q, d.ledger[i]);
    }
    assert RecOk(d.ledger, rec, d.recs[rec]);
    hide LinkOk, LinkedSum, KeysUnique, StatusOf, IsCents;
  }

  /** A step that posts one linked transfer and moves the applied amount by it. */
  lemma InvPosted(d: Desk, rec: int, q: Rec, tx: Tx)
    requires Inv(d) && rec in d.recs && SameTerms(d.recs[rec], q)
    requires tx.link.Some? && tx.link.value.rec == rec && LinkOk(d.recs, tx)
    requires q.applied == d.recs[rec].applied + Signed(tx.link.value) && 0 <= q.applied <= q.amount && IsCents(q.applied)
    requires q.status == StatusOf(q.applied, q.amount, q.accepted)
    requires FindKey(d.ledger, KeyOf(tx), |d.ledger|).None?
    ensures Inv(d.(recs := d.recs[rec := q], ledger := d.ledger + [tx]))
  {
    var ledger := d.ledger + [tx];
    forall i | 0 <= i < |ledger| ensures LinkOk(d.recs[rec := q], ledger[i]) {
      LinkStaysOk(d.recs, rec, q, ledger[i]);
    }
    forall x | x in d.recs ensures RecOk(ledger, x, d.recs[rec := q][x]) {
      LinkedSumAppended(d.ledger, tx, x, |d.ledger|);
      assert RecOk(d.ledger, x, d.recs[x]);
      hide LinkOk, KeysUnique, StatusOf, IsCents;
    }
    hide LinkOk, LinkedSum, StatusOf, IsCents, RecOk, FindKey;
  }

  /** A step that links one existing transfer. */
  lemma InvLinked(d: Desk, rec: int, q: Rec, i: nat, link: Link)
    requires Inv(d) && rec in d.recs && SameTerms(d.recs[rec], q) && i < |d.ledger| && d.ledger[i].link.None?
    requires link.rec == rec && LinkOk(d.recs, d.ledger[i].(link := Some(link)))
    requires q.applied == d.recs[rec].applied + Signed(link) && 0 <= q.applied <= q.amount && IsCents(q.applied)
    requires q.status == StatusOf(q.applied, q.amount, q.accepted)
    requires FindKey(d.ledger, link.key, |d.ledger|).None?
    ensures Inv(d.(recs := d.recs[rec := q], ledger := d.ledger[i := d.ledger[i].(link := Some(link))]))
  {
    var tx := d.ledger[i].(link := Some(link));
    var ledger := d.ledger[i := tx];
    forall k | 0 <= k < |ledger| ensures LinkOk(d.recs[rec := q], ledger[k]) {
      LinkStaysOk(d.recs, rec, q, ledger[k]);
    }
    forall x | x in d.recs ensures RecOk(ledger, x, d.recs[rec := q][x]) {
      LinkedSumLinked(d.ledger, i, tx, x, |d.ledger|);
      assert RecOk(d.ledger, x, d.recs[x]);
      hide LinkOk, KeysUnique, StatusOf, IsCents;
    }
    hide LinkOk, LinkedSum, StatusOf, IsCents, RecOk, FindKey;
  }

  // ---- Every step keeps it -------------------------------------------------------------------------------------

  lemma AcceptKeeps(d: Desk, close: int, rec: int)
    requires Inv(d)
    ensures Inv(AcceptStep(d, close, rec).0)
  {
    if Guard(d, close, rec).None? {
      assert RecOk(d.ledger, rec, d.recs[rec]);
      hide Inv, LinkedSum, Guard, StatusOf;
      InvRestated(d, rec, Restated(d.recs[rec].(accepted := true)));
    }
  }

  lemma CancelKeeps(d: Desk, close: int, rec: int)
    requires Inv(d)
    ensures Inv(CancelStep(d, close, rec).0)
  {
    if Guard(d, close, rec).None? && d.recs[rec].applied <= 0 {
      assert RecOk(d.ledger, rec, d.recs[rec]);
      hide Inv, LinkedSum, Guard, StatusOf;
      InvRestated(d, rec, d.recs[rec].(status := Cancelled));
    }
  }

  lemma ApplyKeeps(d: Desk, close: int, rec: int, date: int, amount: Option<int>, key: Option<Key>)
    requires Inv(d)
    ensures Inv(ApplyStep(d, close, rec, date, amount, key).0)
  {
    hide Inv, FindKey, StatusOf, LinkedSum, IsCents, ToCentsEven;
    if ApplyStep(d, close, rec, date, amount, key).1.Done? {
      var r := d.recs[rec];
      RecHolds(d, rec);
      var applied := ToCentsEven(if amount.None? then RemainingOf(r) else amount.value);
      var used := if key.None? then Some(Full(rec)) else key;
      CentSum(r.applied, applied);
      CentSum(r.amount, r.applied);
      hide Guard;
      InvPosted(d, rec, Increased(r, applied), Posting(date, r, r.from, r.to, applied, Link(rec, used, Application, applied)));
    }
  }

  lemma CentSum(a: int, b: int)
    requires IsCents(a) && IsCents(b)
    ensures ToCentsEven(a + b) == a + b && ToCentsEven(a - b) == a - b && ToCentsEven(a) == a && IsCents(a + b) && IsCents(a - b)
  {
    hide ToCentsEven;
    assert IsCents(a + b) && IsCents(a - b);
    hide IsCents;
  }

  lemma ReverseKeeps(d: Desk, close: int, rec: int, date: int, amount: Option<int>, key: Option<Key>)
    requires Inv(d)
    ensures Inv(ReverseStep(d, close, rec, date, amount, key).0)
  {
    if Guard(d, close, rec).None? {
      var r := d.recs[rec];
      assert RecOk(d.ledger, rec, r);
      var reversed := ToCentsEven(if amount.None? then ToCentsEven(r.applied) else amount.value);
      var used := if key.None? && amount.None? then Some(ReverseFull(rec)) else key;
      if 0 < reversed <= ToCentsEven(r.applied) && FindKey(d.ledger, used, |d.ledger|).None? {
        CentSum(r.applied, reversed);
        CentSum(r.amount, r.applied);
        hide Inv, LinkedSum, Guard, StatusOf, FindKey, IsCents, ToCentsEven;
        InvPosted(d, rec, Decreased(r, reversed), Posting(date, r, r.to, r.from, reversed, Link(rec, used, Reversal, reversed)));
      }
    }
  }

  lemma ReconcileKeeps(d: Desk, close: int, rec: int, tx: nat)
    requires Inv(d)
    ensures Inv(ReconcileStep(d, close, rec, tx).0)
  {
    hide Inv, FindKey, StatusOf, SideTotal, LinkedSum, IsCents, ToCentsEven;
    if ReconcileStep(d, close, rec, tx).1.Done? {
      var r := d.recs[rec];
      RecHolds(d, rec);
      var amount := Matching(d.ledger[tx], r.from, r.to).value;
      assert IsCents(amount) && amount >= 0 by { MatchedAmount(d.ledger[tx], r.from, r.to); }
      CentSum(r.applied, amount);
      CentSum(r.amount, r.applied);
      hide Matching, Guard, Touches;
      InvLinked(d, rec, Increased(r, amount), tx, Link(rec, Some(Reconciles(rec, tx)), Reconciliation, amount));
    }
  }

  lemma RecHolds(d: Desk, rec: int)
    requires Inv(d) && rec in d.recs
    ensures RecOk(d.ledger, rec, d.recs[rec])
  {
  }

  lemma MatchedAmount(tx: Tx, source: int, destination: int)
    requires Matching(tx, source, destination).Some?
    ensures IsCents(Matching(tx, source, destination).value) && Matching(tx, source, destination).value >= 0
  {
    hide SideTotal;
  }

  lemma {:induction false} ApplyEachKeeps(start: Desk, close: int, date: int, n: nat)
    requires Inv(start) && n <= |start.order|
    ensures ApplyEach(start, close, date, n).Ok? ==> Inv(ApplyEach(start, close, date, n).value)
  {
    if n > 0 {
      ApplyEachKeeps(start, close, date, n - 1);
      var before := ApplyEach(start, close, date, n - 1);
      hide Inv, ApplyStep;
      if before.Ok? { ApplyKeeps(before.value, close, start.order[n - 1], date, None, None); }
    }
  }

  lemma StepKeeps(d: Desk, op: Op)
    requires Inv(d)
    ensures Inv(Step(d, op).0)
  {
    hide Inv, ApplyStep, ReverseStep, ReconcileStep, CancelStep, AcceptStep;
    match op {
      case Accept(close, rec) => AcceptKeeps(d, close, rec);
      case Apply(close, rec, date, amount, key) => ApplyKeeps(d, close, rec, date, amount, key);
      case Reconcile(close, rec, tx) => ReconcileKeeps(d, close, rec, tx);
      case Cancel(close, rec) => CancelKeeps(d, close, rec);
      case Reverse(close, rec, date, amount, key) => ReverseKeeps(d, close, rec, date, amount, key);
      case ApplyAll(close, date) => ApplyEachKeeps(d, close, date, |d.order|);
    }
  }

  /** A freshly frozen close: positive amounts in cents, nothing applied, no linked transaction. */
  ghost predicate Fresh(d: Desk) {
    && (forall rec :: rec in d.recs ==>
          var r := d.recs[rec];
          r.amount > 0 && IsCents(r.amount) && r.from != r.to && r.applied == 0 && !r.accepted && r.status == Recommended)
    && (forall i :: 0 <= i < |d.ledger| ==> d.ledger[i].link.None?)
  }

  lemma {:induction false} NothingLinked(ledger: seq<Tx>, rec: int, n: nat)
    requires n <= |ledger| && forall i :: 0 <= i < |ledger| ==> ledger[i].link.None?
    ensures LinkedSum(ledger, rec, n) == 0
  {
    if n > 0 { NothingLinked(ledger, rec, n - 1); }
  }

  lemma FreshInv(d: Desk)
    requires Fresh(d)
    ensures Inv(d)
  {
    forall rec | rec in d.recs ensures RecOk(d.ledger, rec, d.recs[rec]) {
      NothingLinked(d.ledger, rec, |d.ledger|);
    }
  }

  /** Over every run of requests from fresh closes: the applied amount of each recommendation stays
      between zero and its amount and equals applications plus reconciliations less reversals among its
      linked transactions, its status is the function of applied amount and acceptance unless cancelled,
      a cancelled one has nothing applied, and no key is carried by two transactions. */
  lemma {:induction false} RunKeeps(d: Desk, ops: seq<Op>, n: nat)
    requires Fresh(d) && n <= |ops|
    ensures Inv(Run(d, ops, n))
  {
    hide Inv, Fresh, Step;
    FreshInv(d);
    if n > 0 {
      RunKeeps(d, ops, n - 1);
      StepKeeps(Run(d, ops, n - 1), ops[n - 1]);
    }
  }
}
