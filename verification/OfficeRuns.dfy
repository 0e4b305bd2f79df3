/** What executions guarantee over runs of the whole office, in which closes are also opened, finalized,
    reopened and locked, the profile changes, and other transactions are recorded. */
module OfficeRuns {
  import opened Money
  import opened Wrappers
  import opened FiniteSums
  import opened Calendar
  import opened Execution
  import opened ExecutionRuns
  import opened ApplyAllRuns
  import opened MonthlyClose
  import CloseRuns

  // ---- What is applied is what moved -----------------------------------------------------------------------

  /** At any point of any run from a household without closes, the transactions linked to a recommendation,
      when they are plain transfers, have moved exactly its applied amount. */
  lemma ServedMoves(o: Office, qs: seq<Request>, n: nat, rec: int)
    requires Blank(o) && n <= |qs| && forall i :: 0 <= i < |qs| ==> GoodRequest(qs[i])
    requires rec in Served(o, qs, n).recs && PlainlyLinked(Served(o, qs, n).ledger, rec)
    ensures var now := Served(o, qs, n);
            && LinkedImpact(now.ledger, rec, now.recs[rec].from, |now.ledger|) == -now.recs[rec].applied
            && LinkedImpact(now.ledger, rec, now.recs[rec].to, |now.ledger|) == now.recs[rec].applied
  {
    ServedKeeps(o, qs, n);
    hide Served, Blank, GoodRequest, Execution.Inv, LinkedImpact, PlainlyLinked;
    AppliedIsMovedAt(DeskOf(Served(o, qs, n)), rec);
  }

  // ---- Keys act once ------------------------------------------------------------------------------------------

  lemma ServeGrows(o: Office, q: Request)
    ensures Grows(o.ledger, Serve(o, q).0.ledger)
  {
    if q.Execute? { StepGrows(DeskOf(o), q.op); }
    hide Execution.Step, FinalizeStep, ReopenStep, RebaselineStep, ActivateStep;
  }

  lemma {:induction false} ServedGrows(o: Office, qs: seq<Request>, k: nat, n: nat)
    requires k <= n <= |qs|
    ensures Grows(Served(o, qs, k).ledger, Served(o, qs, n).ledger)
  {
    hide Serve;
    if k < n {
      ServedGrows(o, qs, k, n - 1);
      ServeGrows(Served(o, qs, n - 1), qs[n - 1]);
    }
  }

  lemma ExecutedUsesKey(o: Office, op: Op)
    requires RequestKey(op).Some? && Step(DeskOf(o), op).1.Done?
    ensures KeyUsed(Serve(o, Execute(op)).0.ledger, RequestKey(op).value)
  {
    DoneUsesKey(DeskOf(o), op);
    hide Execution.Step, DeskOf, RequestKey, KeyUsed;
  }

  lemma UsedKeyIdle(o: Office, op: Op)
    requires RequestKey(op).Some? && KeyUsed(o.ledger, RequestKey(op).value)
    ensures Serve(o, Execute(op)).0 == o
  {
    UsedKeyChangesNothing(DeskOf(o), op);
    hide Execution.Step, RequestKey, KeyUsed;
  }

  lemma ServedNext(o: Office, qs: seq<Request>, i: nat)
    requires i < |qs|
    ensures Served(o, qs, i + 1) == Serve(Served(o, qs, i), qs[i]).0
  {
    hide Serve;
  }

  /** Once an apply or reverse request has been carried out, repeating its key changes nothing, whatever was
      requested in between, closes reopened and finalized again included. */
  lemma ServedKeysActOnce(o: Office, qs: seq<Request>, i: nat, j: nat)
    requires i < j < |qs| && qs[i].Execute? && qs[j].Execute?
    requires RequestKey(qs[i].op).Some? && RequestKey(qs[i].op) == RequestKey(qs[j].op)
    requires Step(DeskOf(Served(o, qs, i)), qs[i].op).1.Done?
    ensures Serve(Served(o, qs, j), qs[j]).0 == Served(o, qs, j)
  {
    hide *;
    ServedNext(o, qs, i);
    ExecutedUsesKey(Served(o, qs, i), qs[i].op);
    ServedGrows(o, qs, i + 1, j);
    KeyStays(Served(o, qs, i + 1).ledger, Served(o, qs, j).ledger, RequestKey(qs[i].op).value);
    UsedKeyIdle(Served(o, qs, j), qs[j].op);
  }

  // ---- Cancellation is final ----------------------------------------------------------------------------------

  /** Gone for good, or unchanged. */
  ghost predicate GoneOrSame(o: Office, rec: int, r: Rec) { rec < o.next && (rec in o.recs ==> o.recs[rec] == r) }

  lemma ServeCancelled(o: Office, q: Request, rec: int, r: Rec)
    requires GoneOrSame(o, rec, r) && r.status.Cancelled?
    ensures GoneOrSame(Serve(o, q).0, rec, r)
  {
    if q.Execute? {
      StepFrame(DeskOf(o), q.op);
      if rec in o.recs { StepCancelled(DeskOf(o), q.op, rec); }
    }
    hide Execution.Step, RebaselineStep, ActivateStep, SnapshotOf, TotalsOf, Moved, Kept;
  }

  /** A cancelled recommendation never changes again: reopening its close deletes it, and nothing brings it
      back. */
  lemma {:induction false} ServedCancelled(o: Office, qs: seq<Request>, k: nat, n: nat, rec: int)
    requires Blank(o) && k <= n <= |qs| && forall i :: 0 <= i < |qs| ==> GoodRequest(qs[i])
    requires rec in Served(o, qs, k).recs && Served(o, qs, k).recs[rec].status.Cancelled?
    ensures GoneOrSame(Served(o, qs, n), rec, Served(o, qs, k).recs[rec])
  {
    hide Serve;
    if k < n {
      ServedCancelled(o, qs, k, n - 1, rec);
      hide GoneOrSame, Blank, GoodRequest;
      ServeCancelled(Served(o, qs, n - 1), qs[n - 1], rec, Served(o, qs, k).recs[rec]);
    } else {
      ServedKeeps(o, qs, k);
      hide MonthsOk, Execution.Inv, Blank, GoodRequest;
    }
  }

  // ---- Apply-all finishes a close -------------------------------------------------------------------------------

  /** No reversal is requested, and client keys never look like the composed ones. */
  predicate PlainRequest(q: Request) { q.Execute? ==> Plain(q.op) }

  /** A full-application key is only carried by transactions of its own recommendation. */
  ghost predicate FullIsOwn(ledger: seq<Tx>) {
    forall i, x :: 0 <= i < |ledger| && KeyOf(ledger[i]) == Some(Full(x)) ==> ledger[i].link.value.rec == x
  }

  /** Recommendations are listed once each. */
  ghost predicate AllListed(o: Office) {
    && Distinct(o.order) && (forall id :: id in o.recs ==> id in o.order)
    && forall i :: 0 <= i < |o.order| ==> o.order[i] < o.next
  }

  ghost predicate PlainOffice(o: Office) { FullMeansApplied(DeskOf(o)) && FullIsOwn(o.ledger) && AllListed(o) }

  lemma ApplyOwn(d: Desk, close: int, rec: int, date: int, amount: Option<int>, key: Option<Key>)
    requires FullIsOwn(d.ledger) && (key.Some? ==> key.value.Text?)
    ensures FullIsOwn(ApplyStep(d, close, rec, date, amount, key).0.ledger)
  {
    hide Guard, Earlier, RemainingOf, ToCentsEven, Increased;
  }

  lemma {:induction false} ApplyEachOwn(start: Desk, close: int, date: int, n: nat)
    requires FullIsOwn(start.ledger) && n <= |start.order|
    ensures ApplyEach(start, close, date, n).Ok? ==> FullIsOwn(ApplyEach(start, close, date, n).value.ledger)
  {
    hide FullIsOwn, ApplyStep;
    if n > 0 {
      ApplyEachOwn(start, close, date, n - 1);
      var before := ApplyEach(start, close, date, n - 1);
      if before.Ok? { ApplyOwn(before.value, close, start.order[n - 1], date, None, None); }
    }
  }

  lemma StepOwn(d: Desk, op: Op)
    requires FullIsOwn(d.ledger) && Plain(op)
    ensures FullIsOwn(Step(d, op).0.ledger)
  {
    match op {
      case Apply(close, rec, date, amount, key) => hide FullIsOwn, ApplyStep; ApplyOwn(d, close, rec, date, amount, key);
      case ApplyAll(close, date) => hide FullIsOwn; ApplyEachOwn(d, close, date, |d.order|);
      case _ => hide Guard, Earlier, RemainingOf, ToCentsEven, Increased, Candidate, Matching;
    }
  }

  lemma ExecutePlain(o: Office, op: Op)
    requires OfficeInv(o) && PlainOffice(o) && Plain(op)
    ensures PlainOffice(ExecuteStep(o, op).0)
  {
    StepOwn(DeskOf(o), op);
    StepPlain(DeskOf(o), op);
    StepFrame(DeskOf(o), op);
    hide Execution.Step, Execution.Inv, FullMeansApplied, FullIsOwn, MonthsOk, Plain;
    var desk := Execution.Step(DeskOf(o), op).0;
    var q := ExecuteStep(o, op).0;
    assert q.recs == desk.recs && q.ledger == desk.ledger && q.order == o.order && q.next == o.next;
    assert DeskOf(q) == desk;
  }

  /** A used full-application key belongs to a recommendation that still exists. */
  lemma FullExists(o: Office, x: int)
    requires Execution.Inv(DeskOf(o)) && FullIsOwn(o.ledger) && KeyUsed(o.ledger, Full(x))
    ensures x in o.recs
  {
    var i :| 0 <= i < |o.ledger| && KeyOf(o.ledger[i]) == Some(Full(x));
    assert LinkOk(o.recs, o.ledger[i]);
    hide Matching, Touches;
  }

  lemma FinalizePlain(o: Office, m: int, r: Report)
    requires OfficeInv(o) && PlainOffice(o)
    ensures PlainOffice(FinalizeStep(o, m, r).0)
  {
    hide Execution.Inv, KeyUsed, FullIsOwn, MonthsOk, TotalsOf, SnapshotOf;
    var q := FinalizeStep(o, m, r).0;
    forall x | x in q.recs && KeyUsed(q.ledger, Full(x)) ensures q.recs[x].applied == q.recs[x].amount {
      FullExists(o, x);
      assert x < o.next;
    }
    forall id | id in q.recs ensures id in q.order {
      if id !in o.recs { assert q.order[|o.order| + id - o.next] == id; }
    }
  }

  lemma {:induction false} KeptHas(recs: map<int, Rec>, order: seq<int>, chain: set<int>, n: nat)
    requires n <= |order| && Distinct(order)
    ensures Distinct(Kept(recs, order, chain, n))
    ensures forall id :: id in Kept(recs, order, chain, n) <==> id in order[..n] && !(id in recs && recs[id].close in chain)
  {
    if n > 0 {
      KeptHas(recs, order, chain, n - 1);
      assert order[..n] == order[..n - 1] + [order[n - 1]];
      assert order[n - 1] !in order[..n - 1];
    }
  }

  lemma ReopenPlain(o: Office, m: int)
    requires PlainOffice(o)
    ensures PlainOffice(ReopenStep(o, m).0)
  {
    var chain := Cascade(o.months, m);
    KeptHas(o.recs, o.order, chain, |o.order|);
    assert o.order[..|o.order|] == o.order;
    hide KeyUsed, FullIsOwn, Kept, Moved;
    var q := ReopenStep(o, m).0;
    forall i | 0 <= i < |q.order| ensures q.order[i] < q.next { assert q.order[i] in o.order; }
  }

  lemma ServePlain(o: Office, q: Request)
    requires OfficeInv(o) && PlainOffice(o) && PlainRequest(q)
    ensures PlainOffice(Serve(o, q).0)
  {
    match q {
      case Execute(op) => hide OfficeInv, PlainOffice, ExecuteStep; ExecutePlain(o, op);
      case Finalize(m, report) => hide OfficeInv, PlainOffice, FinalizeStep; FinalizePlain(o, m, report);
      case Reopen(m) => hide OfficeInv, PlainOffice, ReopenStep; ReopenPlain(o, m);
      case Record(date, transfer, posted, ownership, entries) =>
        var tx := Tx(date, transfer, posted, ownership, entries, None);
        forall x ensures KeyUsed(o.ledger + [tx], Full(x)) <==> KeyUsed(o.ledger, Full(x)) { KeyAppended(o.ledger, tx, Full(x)); }
        hide OfficeInv, KeyUsed;
      case _ => hide OfficeInv, KeyUsed, FullIsOwn, RebaselineStep, ActivateStep;
    }
  }

  lemma {:induction false} ServedPlain(o: Office, qs: seq<Request>, n: nat)
    requires Blank(o) && n <= |qs| && forall i :: 0 <= i < |qs| ==> GoodRequest(qs[i]) && PlainRequest(qs[i])
    ensures PlainOffice(Served(o, qs, n))
  {
    hide Serve;
    if n > 0 {
      ServedPlain(o, qs, n - 1);
      ServedKeeps(o, qs, n - 1);
      hide OfficeInv, PlainOffice, PlainRequest, GoodRequest, Blank;
      ServePlain(Served(o, qs, n - 1), qs[n - 1]);
    }
  }

  lemma AllAtOnce(o: Office, close: int, date: int)
    ensures var (after, done) := Serve(o, Execute(ApplyAll(close, date)));
            && done == ApplyAllStep(DeskOf(o), close, date).1.Done?
            && DeskOf(after) == ApplyAllStep(DeskOf(o), close, date).0
            && after == o.(recs := DeskOf(after).recs, ledger := DeskOf(after).ledger)
  {
    StepFrame(DeskOf(o), ApplyAll(close, date));
    hide ApplyEach;
  }

  lemma OfficeFinishes(now: Office, close: int, date: int, later: int)
    requires OfficeInv(now) && PlainOffice(now) && Serve(now, Execute(ApplyAll(close, date))).1
    ensures var after := Serve(now, Execute(ApplyAll(close, date))).0;
            && (forall rec :: Listed(DeskOf(now), close, rec) ==>
                  rec in after.recs && after.recs[rec].status == Applied && after.recs[rec].applied == now.recs[rec].amount)
            && Serve(after, Execute(ApplyAll(close, later))) == (after, true)
  {
    hide Serve, Execution.Inv, MonthsOk, RecsOk, FullMeansApplied, FullIsOwn, ApplyAllStep;
    AllAtOnce(now, close, date);
    var after := Serve(now, Execute(ApplyAll(close, date))).0;
    AllAtOnce(after, close, later);
    FinishesWith(DeskOf(now), close, date, later);
  }

  /** After any run of the office without reversals, a carried-out apply-all leaves every recommendation of the
      close that was not cancelled applied in full, and calling it again changes nothing. */
  lemma ServedFinishes(o: Office, qs: seq<Request>, close: int, date: int, later: int)
    requires Blank(o) && forall i :: 0 <= i < |qs| ==> GoodRequest(qs[i]) && PlainRequest(qs[i])
    requires Serve(Served(o, qs, |qs|), Execute(ApplyAll(close, date))).1
    ensures var now := Served(o, qs, |qs|);
            var after := Serve(now, Execute(ApplyAll(close, date))).0;
            && (forall rec :: Listed(DeskOf(now), close, rec) ==>
                  rec in after.recs && after.recs[rec].status == Applied && after.recs[rec].applied == now.recs[rec].amount)
            && Serve(after, Execute(ApplyAll(close, later))) == (after, true)
  {
    hide *;
    ServedKeeps(o, qs, |qs|);
    ServedPlain(o, qs, |qs|);
    var now := Served(o, qs, |qs|);
    OfficeFinishes(now, close, date, later);
  }

  /** In the office a transfer is reconciled exactly with a standing recommendation of a finalized close whose frozen
      settlement is READY, between usable accounts, when it is posted, unlinked, of the same owner, dated from a
      week before the end of that month to the end of the next, and takes out of the source to the cent what it
      brings into the destination, within what remains. */
  lemma ReconcilesInWindow(o: Office, m: int, rec: int, tx: nat)
    requires OfficeInv(o)
    ensures Step(DeskOf(o), Reconcile(m, rec, tx)).1.Done?
            <==> && rec in o.recs && o.recs[rec].close == m && !o.recs[rec].status.Cancelled?
                 && m in o.months && o.months[m].status.Finalized? && ReadyAt(o.months, m)
                 && o.recs[rec].from in o.usable && o.recs[rec].to in o.usable
                 && tx < |o.ledger| && KeyFree(o.ledger, Some(Reconciles(rec, tx)))
                 && var r, t := o.recs[rec], o.ledger[tx];
                    var out, into := SideTotal(t.entries, r.from, false, |t.entries|), SideTotal(t.entries, r.to, true, |t.entries|);
                    && t.posted && t.transfer && t.link.None? && t.ownership == r.ownership
                    && MonthEnd(m) - 7 <= t.date <= MonthEnd(m + 1) && Touches(t, r.from) && Touches(t, r.to)
                    && out > 0 && ToCentsEven(out) == ToCentsEven(into) && ToCentsEven(out) <= r.amount - r.applied
  {
    hide MonthsOk, RecsOk, Execution.Inv, ReconcileStep, MonthEnd, SideTotal, Touches, ToCentsEven, KeyFree;
    ReconcileIff(DeskOf(o), m, rec, tx);
  }

  // ---- What a close pays out --------------------------------------------------------------------------------------

  /** What the first n previewed rows bring into a ledger account less what they take out of it. */
  function RowsMove(rows: seq<Row>, a: int, n: nat): int
    requires n <= |rows|
  {
    if n == 0 then 0 else
    RowsMove(rows, a, n - 1) + (if rows[n - 1].to == a then rows[n - 1].amount else 0) - (if rows[n - 1].from == a then rows[n - 1].amount else 0)
  }

  /** What the transactions linked to n recommendations from an id on move on an account. */
  function LinkedMove(ledger: seq<Tx>, first: int, a: int, n: nat): int {
    if n == 0 then 0 else LinkedMove(ledger, first, a, n - 1) + LinkedImpact(ledger, first + n - 1, a, |ledger|)
  }

  /** The recommendations from an id on are those of the rows, whatever became of them. */
  ghost predicate Bears(q: Rec, m: int, row: Row) {
    q.close == m && q.from == row.from && q.to == row.to && q.ownership == row.ownership && q.amount == row.amount
  }

  lemma {:induction false} LinkedElsewhere(recs: map<int, Rec>, ledger: seq<Tx>, rec: int, a: int, n: nat)
    requires rec in recs && recs[rec].from != recs[rec].to && a != recs[rec].from && a != recs[rec].to && n <= |ledger|
    requires (forall i :: 0 <= i < |ledger| ==> LinkOk(recs, ledger[i])) && PlainlyLinked(ledger, rec)
    ensures LinkedImpact(ledger, rec, a, n) == 0
  {
    if n > 0 {
      LinkedElsewhere(recs, ledger, rec, a, n - 1);
      var tx := ledger[n - 1];
      assert LinkOk(recs, tx);
      if tx.link.Some? && tx.link.value.rec == rec {
        TwoSides(tx.entries, a, true);
        TwoSides(tx.entries, a, false);
        OnlyTwo(tx, recs[rec].from, recs[rec].to);
      }
      hide LinkOk, PlainTransfer, SideTotal;
    }
  }

  /** Two entries that touch both accounts touch no other. */
  lemma OnlyTwo(tx: Tx, from: int, to: int)
    requires |tx.entries| == 2 && from != to && Touches(tx, from) && Touches(tx, to)
    ensures {tx.entries[0].account, tx.entries[1].account} == {from, to}
  {
  }

  /** A recommendation applied in full has moved its amount. */
  lemma PaidInFull(d: Desk, rec: int, a: int)
    requires Inv(d) && rec in d.recs && PlainlyLinked(d.ledger, rec) && d.recs[rec].applied == d.recs[rec].amount
    ensures var r := d.recs[rec];
            LinkedImpact(d.ledger, rec, a, |d.ledger|) == (if r.to == a then r.amount else 0) - (if r.from == a then r.amount else 0)
  {
    AppliedIsMovedAt(d, rec);
    RecHolds(d, rec);
    if a != d.recs[rec].from && a != d.recs[rec].to { LinkedElsewhere(d.recs, d.ledger, rec, a, |d.ledger|); }
    hide LinkOk, PlainlyLinked, LinkedImpact, LinkedSum, KeysUnique;
  }

  /** All of them are there, with the terms of the rows, applied in full, by plain transfers only. */
  ghost predicate PaidRecs(d: Desk, first: int, m: int, rows: seq<Row>) {
    forall id :: first <= id < first + |rows| ==>
      id in d.recs && Bears(d.recs[id], m, rows[id - first]) && d.recs[id].applied == d.recs[id].amount && PlainlyLinked(d.ledger, id)
  }

  lemma {:induction false} AllPaid(d: Desk, first: int, m: int, rows: seq<Row>, a: int, n: nat)
    requires Inv(d) && n <= |rows| && PaidRecs(d, first, m, rows)
    ensures LinkedMove(d.ledger, first, a, n) == RowsMove(rows, a, n)
  {
    if n > 0 {
      hide Inv, PlainlyLinked, LinkedImpact;
      AllPaid(d, first, m, rows, a, n - 1);
      var id := first + n - 1;
      assert id in d.recs && Bears(d.recs[id], m, rows[n - 1]);
      PaidInFull(d, id, a);
    }
  }

  /** Deleted for good, or with the terms of its row. */
  ghost predicate GoneOrBears(o: Office, rec: int, first: int, m: int, rows: seq<Row>)
    requires first <= rec < first + |rows|
  {
    rec < o.next && (rec in o.recs ==> Bears(o.recs[rec], m, rows[rec - first]))
  }

  lemma ServeBears(o: Office, q: Request, rec: int, first: int, m: int, rows: seq<Row>)
    requires first <= rec < first + |rows| && GoneOrBears(o, rec, first, m, rows)
    ensures GoneOrBears(Serve(o, q).0, rec, first, m, rows)
  {
    if q.Execute? { StepFrame(DeskOf(o), q.op); }
    hide Execution.Step, RebaselineStep, ActivateStep, SnapshotOf, TotalsOf, Moved, Kept;
  }

  /** Every recommendation of the rows is gone for good or bears their terms. */
  ghost predicate AllBear(o: Office, first: int, m: int, rows: seq<Row>) {
    forall id :: first <= id < first + |rows| ==> GoneOrBears(o, id, first, m, rows)
  }

  /** Every recommendation of the rows is there, not cancelled. */
  predicate AllStand(o: Office, first: int, n: nat) {
    forall id :: first <= id < first + n ==> id in o.recs && !o.recs[id].status.Cancelled?
  }

  ghost predicate AllPlain(ledger: seq<Tx>, first: int, n: nat) { forall id :: first <= id < first + n ==> PlainlyLinked(ledger, id) }

  lemma RowsFrozen(o: Office, q: Request)
    requires RecsOk(o) && q.Finalize? && FinalizeStep(o, q.month, q.report).1 && ReadyAt(FinalizeStep(o, q.month, q.report).0.months, q.month)
    ensures AllBear(Serve(o, q).0, o.next, q.month, q.report.rows)
  {
    CloseRuns.FinalizeFreezes(o, q.month, q.report);
    hide SnapshotOf, TotalsOf, ReadyAt, RecsOk;
  }

  lemma ServeAllBear(o: Office, q: Request, first: int, m: int, rows: seq<Row>)
    requires AllBear(o, first, m, rows)
    ensures AllBear(Serve(o, q).0, first, m, rows)
  {
    hide Serve, GoneOrBears;
    forall id | first <= id < first + |rows| ensures GoneOrBears(Serve(o, q).0, id, first, m, rows) {
      ServeBears(o, q, id, first, m, rows);
    }
  }

  lemma {:induction false} ServedAllBear(o: Office, qs: seq<Request>, k: nat, n: nat, first: int, m: int, rows: seq<Row>)
    requires k <= n <= |qs| && AllBear(Served(o, qs, k), first, m, rows)
    ensures AllBear(Served(o, qs, n), first, m, rows)
  {
    hide Serve, AllBear;
    if k < n {
      ServedAllBear(o, qs, k, n - 1, first, m, rows);
      ServeAllBear(Served(o, qs, n - 1), qs[n - 1], first, m, rows);
    }
  }

  lemma PaidAfter(now: Office, after: Office, m: int, first: int, rows: seq<Row>, a: int)
    requires OfficeInv(after) && AllBear(now, first, m, rows) && AllBear(after, first, m, rows)
    requires AllStand(now, first, |rows|) && AllPlain(after.ledger, first, |rows|)
    requires forall rec :: Listed(DeskOf(now), m, rec) ==>
               rec in after.recs && after.recs[rec].status == Applied && after.recs[rec].applied == now.recs[rec].amount
    ensures LinkedMove(after.ledger, first, a, |rows|) == RowsMove(rows, a, |rows|)
  {
    hide Execution.Inv, MonthsOk, RecsOk, PlainlyLinked;
    forall id | first <= id < first + |rows|
      ensures id in after.recs && Bears(after.recs[id], m, rows[id - first]) && after.recs[id].applied == after.recs[id].amount
    {
      assert GoneOrBears(now, id, first, m, rows) && GoneOrBears(after, id, first, m, rows);
      assert Listed(DeskOf(now), m, id);
    }
    AllPaid(DeskOf(after), first, m, rows, a, |rows|);
  }

  /** From freezing to the bank, over any run of the office without reversals: a close was finalized READY with some
      rows, none of its recommendations was cancelled or deleted since, and an apply-all is carried out at the end.
      Then on every ledger account the transactions linked to them, when they are plain transfers, move exactly what
      the previewed rows bring in less what they take out. */
  lemma {:induction false} ClosePaysOut(o: Office, qs: seq<Request>, k: nat, date: int, a: int)
    requires Blank(o) && (forall i :: 0 <= i < |qs| ==> GoodRequest(qs[i]) && PlainRequest(qs[i]))
    requires k < |qs| && qs[k].Finalize? && FinalizeStep(Served(o, qs, k), qs[k].month, qs[k].report).1
    requires ReadyAt(FinalizeStep(Served(o, qs, k), qs[k].month, qs[k].report).0.months, qs[k].month)
    requires Serve(Served(o, qs, |qs|), Execute(ApplyAll(qs[k].month, date))).1
    requires AllStand(Served(o, qs, |qs|), Served(o, qs, k).next, |qs[k].report.rows|)
    requires AllPlain(Serve(Served(o, qs, |qs|), Execute(ApplyAll(qs[k].month, date))).0.ledger, Served(o, qs, k).next, |qs[k].report.rows|)
    ensures var rows := qs[k].report.rows;
            LinkedMove(Serve(Served(o, qs, |qs|), Execute(ApplyAll(qs[k].month, date))).0.ledger, Served(o, qs, k).next, a, |rows|)
            == RowsMove(rows, a, |rows|)
  {
    hide *;
    var rows, first := qs[k].report.rows, Served(o, qs, k).next;
    var now, m := Served(o, qs, |qs|), qs[k].month;
    var pay := Execute(ApplyAll(m, date));
    RunsAreKept(o, qs, k, pay);
    ServedNext(o, qs, k);
    RowsFrozen(Served(o, qs, k), qs[k]);
    ServedAllBear(o, qs, k + 1, |qs|, first, m, rows);
    ServeAllBear(now, pay, first, m, rows);
    ServedFinishes(o, qs, m, date, date);
    PaidAfter(now, Serve(now, pay).0, m, first, rows, a);
  }

  lemma RunsAreKept(o: Office, qs: seq<Request>, k: nat, pay: Request)
    requires Blank(o) && (forall i :: 0 <= i < |qs| ==> GoodRequest(qs[i])) && k <= |qs| && pay.Execute?
    ensures RecsOk(Served(o, qs, k)) && OfficeInv(Serve(Served(o, qs, |qs|), pay).0)
  {
    hide Served, Serve, Execution.Inv, MonthsOk, RecsOk, Blank;
    ServedKeeps(o, qs, k);
    ServedKeeps(o, qs, |qs|);
    ServeKeeps(Served(o, qs, |qs|), pay);
  }
}
