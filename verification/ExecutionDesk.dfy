/** The execution requests as the program carries them out: recommendations and ledger updated in place. */
module ExecutionDesk {
  import opened Money
  import opened Wrappers
  import opened Execution

  /** `_matching_transfer_amount`: one pass over the entries. */
  method MatchingTransferAmount(tx: Tx, source: int, destination: int) returns (matched: Option<int>)
    ensures matched == Matching(tx, source, destination)
    ensures matched.Some? ==> IsCents(matched.value) && matched.value >= 0
  {
    var sourceAmount, destinationAmount := 0, 0;
    for i := 0 to |tx.entries|
      invariant sourceAmount == SideTotal(tx.entries, source, false, i)
      invariant destinationAmount == SideTotal(tx.entries, destination, true, i)
    {
      var e := tx.entries[i];
      if e.account == source && !e.debit { sourceAmount := sourceAmount + e.amount; }
      if e.account == destination && e.debit { destinationAmount := destinationAmount + e.amount; }
    }
    if sourceAmount <= 0 || ToCentsEven(sourceAmount) != ToCentsEven(destinationAmount) { return None; }
    return Some(ToCentsEven(sourceAmount));
  }

  class Desktop {
    var recs: map<int, Rec>
    var ledger: seq<Tx>
    const order: seq<int>
    const closes: map<int, Close>
    const usable: set<int>

    function State(): Desk
      reads this
    {
      Desk(recs, order, ledger, closes, usable)
    }

    constructor (d: Desk)
      ensures State() == d
    {
      recs, order, ledger, closes, usable := d.recs, d.order, d.ledger, d.closes, d.usable;
    }

    method Accept(close: int, rec: int) returns (outcome: Outcome)
      modifies this
      ensures (State(), outcome) == AcceptStep(old(State()), close, rec)
    {
      var bad := Guard(State(), close, rec);
      if bad.Some? { return Rejected(bad.value); }
      var r := recs[rec];
      if !r.accepted { r := r.(accepted := true); }
      recs := recs[rec := Restated(r)];
      return Done;
    }

    method Cancel(close: int, rec: int) returns (outcome: Outcome)
      modifies this
      ensures (State(), outcome) == CancelStep(old(State()), close, rec)
    {
      var bad := Guard(State(), close, rec);
      if bad.Some? { return Rejected(bad.value); }
      if recs[rec].applied > 0 { return Rejected(AlreadyApplied); }
      recs := recs[rec := recs[rec].(status := Cancelled)];
      return Done;
    }

    /** `amount` more of a recommendation is applied; it counts as accepted from then on. */
    method Raise(rec: int, amount: int)
      requires rec in recs
      modifies this`recs
      ensures recs == old(recs)[rec := Increased(old(recs)[rec], amount)]
    {
      var r := recs[rec];
      r := r.(applied := ToCentsEven(r.applied + amount));
      if !r.accepted { r := r.(accepted := true); }
      recs := recs[rec := Restated(r)];
    }

    method Apply(close: int, rec: int, date: int, amount: Option<int>, key: Option<Key>) returns (outcome: Outcome)
      modifies this
      ensures (State(), outcome) == ApplyStep(old(State()), close, rec, date, amount, key)
    {
      var bad := Guard(State(), close, rec);
      if bad.Some? { return Rejected(bad.value); }
      assert rec in recs;
      hide Guard, Earlier, ToCentsEven, StatusOf;
      var r := recs[rec];
      var provisional := if key.None? && amount.None? then Some(Full(rec)) else key;
      if provisional.Some? {
        var earlier := Earlier(State(), provisional, rec);
        if earlier.Some? { return earlier.value; }
      }
      var available := RemainingOf(r);
      var applied := ToCentsEven(if amount.None? then available else amount.value);
      if applied <= 0 || applied > available { return Rejected(BadAmount); }
      if key.None? && applied < available { return Rejected(KeyRequired); }
      var used := if key.None? then Some(Full(rec)) else key;
      if TooLong(used) { return Rejected(KeyTooLong); }
      var again := Earlier(State(), used, rec);
      if again.Some? { return again.value; }
      if r.from !in usable || r.to !in usable { return Rejected(BadAccount); }
      ledger := ledger + [Posting(date, r, r.from, r.to, applied, Link(rec, used, Application, applied))];
      Raise(rec, applied);
      return Done;
    }

    method Reconcile(close: int, rec: int, tx: nat) returns (outcome: Outcome)
      modifies this
      ensures (State(), outcome) == ReconcileStep(old(State()), close, rec, tx)
    {
      var bad := Guard(State(), close, rec);
      if bad.Some? { return Rejected(bad.value); }
      assert rec in recs && recs[rec].close in closes;
      hide Guard, Earlier, ToCentsEven, StatusOf, Matching, Touches;
      var r := recs[rec];
      if r.from !in usable || r.to !in usable { return Rejected(BadAccount); }
      if tx >= |ledger| || !Candidate(State(), r, ledger[tx]) { return Rejected(Incompatible); }
      var matched := MatchingTransferAmount(ledger[tx], r.from, r.to);
      var key := Some(Reconciles(rec, tx));
      if Earlier(State(), key, rec).Some? { return Rejected(KeyTaken); }
      ledger := ledger[tx := ledger[tx].(link := Some(Link(rec, key, Reconciliation, matched.value)))];
      Raise(rec, matched.value);
      return Done;
    }

    method Reverse(close: int, rec: int, date: int, amount: Option<int>, key: Option<Key>) returns (outcome: Outcome)
      modifies this
      ensures (State(), outcome) == ReverseStep(old(State()), close, rec, date, amount, key)
    {
      var bad := Guard(State(), close, rec);
      if bad.Some? { return Rejected(bad.value); }
      assert rec in recs;
      hide Guard, Earlier, ToCentsEven, StatusOf;
      var r := recs[rec];
      var used := if key.None? && amount.None? then Some(ReverseFull(rec)) else key;
      if used.Some? {
        if TooLong(used) { return Rejected(KeyTooLong); }
        var earlier := Earlier(State(), used, rec);
        if earlier.Some? { return earlier.value; }
      }
      var available := ToCentsEven(r.applied);
      var reversed := ToCentsEven(if amount.None? then available else amount.value);
      if reversed <= 0 || reversed > available { return Rejected(BadAmount); }
      var again := Earlier(State(), used, rec);
      if again.Some? { return again.value; }
      if r.from !in usable || r.to !in usable { return Rejected(BadAccount); }
      ledger := ledger + [Posting(date, r, r.to, r.from, reversed, Link(rec, used, Reversal, reversed))];
      r := r.(applied := ToCentsEven(r.applied - reversed));
      recs := recs[rec := Restated(r)];
      return Done;
    }

    /** One database transaction: the first rejection undoes every application before it. */
    method ApplyAll(close: int, date: int) returns (outcome: Outcome)
      modifies this
      ensures (State(), outcome) == ApplyAllStep(old(State()), close, date)
    {
      if close !in closes { return Rejected(NotFound); }
      if closes[close].status.Locked? { return Rejected(CloseLocked); }
      if !closes[close].status.Finalized? { return Rejected(CloseNotFinalized); }
      var recsBefore, ledgerBefore := recs, ledger;
      var due := recs;
      for i := 0 to |order|
        invariant ApplyEach(old(State()), close, date, i) == Ok(State())
      {
        hide ApplyStep, RemainingOf;
        var rec := order[i];
        if rec in due && due[rec].close == close && !due[rec].status.Cancelled? {
          if !(rec in recs && RemainingOf(recs[rec]) <= 0) {
            var answer := Apply(close, rec, date, None, None);
            if answer.Rejected? {
              recs, ledger := recsBefore, ledgerBefore;
              StopsAt(old(State()), close, date, i + 1, |order|);
              return answer;
            }
          }
        }
      }
      return Done;
    }
  }

  /** Once an application is rejected, the rest of the list is not looked at. */
  lemma {:induction false} StopsAt(start: Desk, close: int, date: int, i: nat, n: nat)
    requires i <= n <= |start.order| && ApplyEach(start, close, date, i).Err?
    ensures ApplyEach(start, close, date, n) == ApplyEach(start, close, date, i)
  {
    if i < n {
      StopsAt(start, close, date, i, n - 1);
      hide ApplyStep;
    }
  }
}
