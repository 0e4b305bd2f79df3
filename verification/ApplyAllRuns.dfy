/** Apply-all (`apply_all_settlement_recommendations`): exactly which recommendations one request brings to
    their full amount, and why runs without reversals always finish the close. */
module ApplyAllRuns {
  import opened Money
  import opened Wrappers
  import opened FiniteSums
  import opened Execution
  import opened ExecutionRuns

  // ---- One request ----------------------------------------------------------------------------------------

  ghost predicate AmongFirst(order: seq<int>, rec: int, n: nat)
    requires n <= |order|
  {
    exists i :: 0 <= i < n && order[i] == rec
  }

  /** What never changes: the recommendations and their terms, their order, the closes and accounts. */
  ghost predicate SameFrame(d: Desk, e: Desk) {
    && d.order == e.order && d.closes == e.closes && d.usable == e.usable && d.recs.Keys == e.recs.Keys
    && forall rec :: rec in d.recs ==> SameTerms(d.recs[rec], e.recs[rec])
  }

  lemma {:induction false} ApplyEachFrame(start: Desk, close: int, date: int, n: nat)
    requires n <= |start.order|
    ensures ApplyEach(start, close, date, n).Ok? ==> SameFrame(start, ApplyEach(start, close, date, n).value)
  {
    if n > 0 {
      ApplyEachFrame(start, close, date, n - 1);
      hide Earlier, RemainingOf, ToCentsEven, StatusOf;
    }
  }

  lemma StepFrame(d: Desk, op: Op)
    ensures SameFrame(d, Step(d, op).0)
  {
    hide Earlier, RemainingOf, ToCentsEven, StatusOf, Candidate, Matching, ApplyEach;
    if op.ApplyAll? { ApplyEachFrame(d, op.close, op.date, |d.order|); }
  }

  /** Applying one recommendation without amount or key: it reaches its amount unless its key is used. */
  lemma AppliedInFull(d: Desk, close: int, rec: int, date: int)
    requires Inv(d) && rec in d.recs && d.recs[rec].applied < d.recs[rec].amount
    requires !ApplyStep(d, close, rec, date, None, None).1.Rejected?
    ensures var after := ApplyStep(d, close, rec, date, None, None).0;
            if KeyUsed(d.ledger, Full(rec)) then after == d
            else rec in after.recs && after.recs[rec].applied == d.recs[rec].amount
                 && after.recs == d.recs[rec := after.recs[rec]]
                 && (exists tx :: after.ledger == d.ledger + [tx] && KeyOf(tx) == Some(Full(rec)))
  {
    var r := d.recs[rec];
    assert RecOk(d.ledger, rec, r);
    CentSum(r.amount, r.applied);
    CentSum(r.applied, r.amount - r.applied);
    assert ToCentsEven(r.applied + (r.amount - r.applied)) == r.amount;
    var found := FindKey(d.ledger, Some(Full(rec)), |d.ledger|);
    assert KeyUsed(d.ledger, Full(rec)) <==> found.Some?;
    hide Inv, RecOk, ToCentsEven, FindKey, KeyUsed, Guard, StatusOf;
    if found.None? {
      var tx := Posting(date, r, r.from, r.to, r.amount - r.applied, Link(rec, Some(Full(rec)), Application, r.amount - r.applied));
      assert ApplyStep(d, close, rec, date, None, None).0.ledger == d.ledger + [tx];
    }
  }

  lemma KeyAppended(ledger: seq<Tx>, tx: Tx, key: Key)
    ensures KeyUsed(ledger + [tx], key) <==> KeyUsed(ledger, key) || KeyOf(tx) == Some(key)
  {
    var after := ledger + [tx];
    if KeyUsed(ledger, key) {
      var i :| 0 <= i < |ledger| && KeyOf(ledger[i]) == Some(key);
      assert KeyOf(after[i]) == Some(key);
    }
    if KeyOf(tx) == Some(key) { assert KeyOf(after[|ledger|]) == Some(key); }
  }

  /** Where a recommendation stands after the first n have been visited. */
  lemma {:induction false} Visited(start: Desk, close: int, date: int, n: nat, rec: int)
    requires Inv(start) && Distinct(start.order) && n <= |start.order| && Listed(start, close, rec)
    requires ApplyEach(start, close, date, n).Ok?
    ensures var after := ApplyEach(start, close, date, n).value;
            && rec in after.recs
            && (if AmongFirst(start.order, rec, n) && !KeyUsed(start.ledger, Full(rec))
                then after.recs[rec].applied == start.recs[rec].amount
                else after.recs[rec] == start.recs[rec] && (KeyUsed(after.ledger, Full(rec)) <==> KeyUsed(start.ledger, Full(rec))))
  {
    if n > 0 {
      var at := start.order[n - 1];
      var before := ApplyEach(start, close, date, n - 1);
      Visited(start, close, date, n - 1, rec);
      ApplyEachKeeps(start, close, date, n - 1);
      ApplyEachFrame(start, close, date, n - 1);
      assert AmongFirst(start.order, rec, n) <==> AmongFirst(start.order, rec, n - 1) || at == rec;
      assert !AmongFirst(start.order, at, n - 1);
      assert RecOk(start.ledger, rec, start.recs[rec]);
      if Listed(start, close, at) && RemainingOf(before.value.recs[at]) > 0 {
        VisitOne(before.value, close, date, at, rec);
      } else if at == rec && Listed(start, close, at) {
        NothingRemains(before.value, rec);
        hide Inv, KeyUsed, AmongFirst, RecOk, ApplyStep, ToCentsEven;
      }
    }
  }

  lemma VisitOne(d: Desk, close: int, date: int, at: int, rec: int)
    requires Inv(d) && at in d.recs && rec in d.recs && RemainingOf(d.recs[at]) > 0
    requires !ApplyStep(d, close, at, date, None, None).1.Rejected?
    ensures var after := ApplyStep(d, close, at, date, None, None).0;
            && rec in after.recs
            && (at != rec ==> after.recs[rec] == d.recs[rec] && (KeyUsed(after.ledger, Full(rec)) <==> KeyUsed(d.ledger, Full(rec))))
            && (at == rec ==> if KeyUsed(d.ledger, Full(rec)) then after == d else after.recs[rec].applied == d.recs[rec].amount)
  {
    var r := d.recs[at];
    assert RecOk(d.ledger, at, r);
    CentSum(r.amount, r.applied);
    AppliedInFull(d, close, at, date);
    var after := ApplyStep(d, close, at, date, None, None).0;
    hide Inv, RecOk, KeyUsed, ApplyStep, ToCentsEven;
    if !KeyUsed(d.ledger, Full(at)) {
      var tx :| after.ledger == d.ledger + [tx] && KeyOf(tx) == Some(Full(at));
      KeyAppended(d.ledger, tx, Full(rec));
    }
  }

  lemma NothingRemains(d: Desk, rec: int)
    requires Inv(d) && rec in d.recs
    ensures RemainingOf(d.recs[rec]) <= 0 <==> d.recs[rec].applied == d.recs[rec].amount
  {
    var r := d.recs[rec];
    assert RecOk(d.ledger, rec, r);
    CentSum(r.amount, r.applied);
  }

  /** A carried-out apply-all brings a listed recommendation to its full amount if and only if it was
      there already or its full-application key had not been used. */
  lemma AppliedByAll(d: Desk, close: int, date: int, rec: int)
    requires Inv(d) && Distinct(d.order) && rec in d.order && Listed(d, close, rec)
    requires ApplyAllStep(d, close, date).1.Done?
    ensures var after := ApplyAllStep(d, close, date).0;
            && rec in after.recs
            && (after.recs[rec].applied == after.recs[rec].amount
                <==> d.recs[rec].applied == d.recs[rec].amount || !KeyUsed(d.ledger, Full(rec)))
  {
    Visited(d, close, date, |d.order|, rec);
    ApplyEachFrame(d, close, date, |d.order|);
    assert AmongFirst(d.order, rec, |d.order|);
  }

  // ---- A reversal in between -------------------------------------------------------------------------------

  function One(applied: int, status: Status): Rec { Rec(1, 10, 20, None, CENT, applied, status != Recommended, status) }

  function OneDesk(r: Rec, ledger: seq<Tx>): Desk {
    Desk(map[7 := r], [7], ledger, map[1 := Close(Finalized, true, true, 0, 9)], {10, 20})
  }

  function Paid(): Tx { Posting(5, One(0, Recommended), 10, 20, CENT, Link(7, Some(Full(7)), Application, CENT)) }

  function Returned(): Tx { Posting(5, One(0, Recommended), 20, 10, CENT, Link(7, Some(ReverseFull(7)), Reversal, CENT)) }

  lemma OneByOne(r: Rec, ledger: seq<Tx>)
    requires r.close == 1 && !r.status.Cancelled?
    ensures var d := OneDesk(r, ledger);
            ApplyEach(d, 1, 5, 1)
            == if RemainingOf(r) <= 0 then Ok(d) else
               var (after, outcome) := ApplyStep(d, 1, 7, 5, None, None);
               if outcome.Rejected? then Err(outcome.reason) else Ok(after)
  {
    hide ApplyStep, RemainingOf;
    var d := OneDesk(r, ledger);
    assert ApplyEach(d, 1, 5, 0) == Ok(d);
  }

  lemma KeysOf(key: Option<Key>)
    ensures FindKey([], key, 0).None?
    ensures FindKey([Paid()], key, 1) == if key == Some(Full(7)) then Some(0) else None
    ensures FindKey([Paid(), Returned()], Some(Full(7)), 2) == Some(0)
  {
    assert FindKey([Paid()], key, 0).None?;
    assert FindKey([Paid(), Returned()], Some(Full(7)), 0).None?;
    assert FindKey([Paid(), Returned()], Some(Full(7)), 1) == Some(0);
  }

  function Unpaid(): Desk { OneDesk(One(0, Recommended), []) }

  function PaidDesk(): Desk { OneDesk(One(CENT, Applied), [Paid()]) }

  function ReturnedDesk(): Desk { OneDesk(One(0, Accepted), [Paid(), Returned()]) }

  lemma PayingOne()
    ensures Step(Unpaid(), ApplyAll(1, 5)) == (PaidDesk(), Done)
  {
    KeysOf(Some(Full(7)));
    OneByOne(One(0, Recommended), []);
    hide FindKey, ApplyEach;
    assert Unpaid().recs[7 := One(CENT, Applied)] == PaidDesk().recs && [] + [Paid()] == PaidDesk().ledger;
    assert Increased(One(0, Recommended), CENT) == One(CENT, Applied);
    assert ApplyStep(Unpaid(), 1, 7, 5, None, None) == (PaidDesk(), Done);
  }

  lemma ReturningOne()
    ensures Step(PaidDesk(), Reverse(1, 7, 5, None, None)) == (ReturnedDesk(), Done)
  {
    KeysOf(Some(ReverseFull(7)));
    hide FindKey;
    assert PaidDesk().recs[7 := One(0, Accepted)] == ReturnedDesk().recs;
    assert [Paid()] + [Returned()] == ReturnedDesk().ledger;
    assert Decreased(One(CENT, Applied), CENT) == One(0, Accepted);
  }

  lemma PayingAgain()
    ensures Step(ReturnedDesk(), ApplyAll(1, 5)) == (ReturnedDesk(), Done)
  {
    KeysOf(Some(Full(7)));
    OneByOne(One(0, Accepted), [Paid(), Returned()]);
    hide FindKey, ApplyEach;
    assert ApplyStep(ReturnedDesk(), 1, 7, 5, None, None) == (ReturnedDesk(), Replayed);
  }

  /** A full reversal defeats apply-all: from a fresh close, apply-all, reverse and apply-all again are all
      carried out, but the last one finds the full-application key used and leaves nothing applied. */
  lemma ReversalBlocksApplyAll()
    ensures var ops := [ApplyAll(1, 5), Reverse(1, 7, 5, None, None), ApplyAll(1, 5)];
            && Fresh(Unpaid()) && Distinct(Unpaid().order)
            && Run(Unpaid(), ops, 1).recs == map[7 := One(CENT, Applied)]
            && Step(Run(Unpaid(), ops, 2), ops[2]).1.Done?
            && Run(Unpaid(), ops, 3).recs == map[7 := One(0, Accepted)]
  {
    var ops := [ApplyAll(1, 5), Reverse(1, 7, 5, None, None), ApplyAll(1, 5)];
    hide Run, Step;
    PayingOne();
    ReturningOne();
    PayingAgain();
    ThreeSteps(Unpaid(), ops);
  }

  lemma ThreeSteps(d: Desk, ops: seq<Op>)
    requires |ops| == 3
    ensures Run(d, ops, 1) == Step(d, ops[0]).0
    ensures Run(d, ops, 2) == Step(Run(d, ops, 1), ops[1]).0
    ensures Run(d, ops, 3) == Step(Run(d, ops, 2), ops[2]).0
  {
    hide Step;
    assert Run(d, ops, 0) == d;
  }

  // ---- Half a cent ------------------------------------------------------------------------------------------

  function HalfCentTransfer(link: Option<Link>): Tx { Tx(5, true, true, None, TransferEntries(10, 20, CENT / 2), link) }

  lemma HalfCentMatches(r: Rec, ledger: seq<Tx>)
    requires r == One(0, Recommended) && ledger == [HalfCentTransfer(None)]
    ensures Matching(ledger[0], 10, 20) == Some(0) && Candidate(OneDesk(r, ledger), r, ledger[0])
    ensures FindKey(ledger, Some(Reconciles(7, 0)), 1).None?
  {
    var tx := ledger[0];
    TwoSides(tx.entries, 10, false);
    TwoSides(tx.entries, 20, true);
    assert tx.entries[1].account == 10 && tx.entries[0].account == 20;
    assert FindKey(ledger, Some(Reconciles(7, 0)), 0).None?;
    hide SideTotal;
  }

  /** From a fresh close a transfer of exactly half a cent is linked with amount zero; the recommendation is
      accepted and nothing of it applied. */
  lemma HalfCentReconciled()
    ensures var before := OneDesk(One(0, Recommended), [HalfCentTransfer(None)]);
            var link := Link(7, Some(Reconciles(7, 0)), Reconciliation, 0);
            var after := OneDesk(One(0, Accepted), [HalfCentTransfer(Some(link))]);
            Fresh(before) && Step(before, Reconcile(1, 7, 0)) == (after, Done)
  {
    var r, tx := One(0, Recommended), HalfCentTransfer(None);
    var d := OneDesk(r, [tx]);
    HalfCentMatches(r, [tx]);
    hide FindKey, Candidate, Matching;
    assert Increased(r, 0) == One(0, Accepted);
    var link := Link(7, Some(Reconciles(7, 0)), Reconciliation, 0);
    assert d.recs[7 := One(0, Accepted)] == map[7 := One(0, Accepted)];
    assert [tx][0 := tx.(link := Some(link))] == [HalfCentTransfer(Some(link))];
  }

  // ---- Runs without reversals ------------------------------------------------------------------------------

  /** No reversal, and client keys never look like the composed ones. */
  predicate Plain(op: Op) { !op.Reverse? && (op.Apply? && op.key.Some? ==> op.key.value.Text?) }

  /** A used full-application key means the recommendation is at its full amount. */
  ghost predicate FullMeansApplied(d: Desk) {
    forall rec :: rec in d.recs && KeyUsed(d.ledger, Full(rec)) ==> d.recs[rec].applied == d.recs[rec].amount
  }

  lemma ApplyPlain(d: Desk, close: int, rec: int, date: int, amount: Option<int>, key: Option<Key>)
    requires Inv(d) && FullMeansApplied(d) && (key.Some? ==> key.value.Text?)
    ensures FullMeansApplied(ApplyStep(d, close, rec, date, amount, key).0)
  {
    hide Inv, FullMeansApplied, KeyUsed, StatusOf, IsCents, ToCentsEven;
    var (after, outcome) := ApplyStep(d, close, rec, date, amount, key);
    if outcome.Done? {
      var r := d.recs[rec];
      RecHolds(d, rec);
      var applied := ToCentsEven(if amount.None? then RemainingOf(r) else amount.value);
      CentSum(r.amount, r.applied);
      CentSum(r.applied, applied);
      var used := if key.None? then Some(Full(rec)) else key;
      var tx := Posting(date, r, r.from, r.to, applied, Link(rec, used, Application, applied));
      FullAppended(d, after, rec, tx);
    }
  }

  /** Posting under a full-application key is harmless when it completes its recommendation. */
  lemma FullAppended(d: Desk, after: Desk, rec: int, tx: Tx)
    requires FullMeansApplied(d) && rec in d.recs && rec in after.recs && after.recs == d.recs[rec := after.recs[rec]]
    requires after.ledger == d.ledger + [tx] && SameTerms(d.recs[rec], after.recs[rec])
    requires d.recs[rec].applied < d.recs[rec].amount
    requires forall x :: KeyOf(tx) == Some(Full(x)) ==> x == rec && after.recs[rec].applied == after.recs[rec].amount
    ensures FullMeansApplied(after)
  {
    hide KeyUsed;
    forall x | x in after.recs && KeyUsed(after.ledger, Full(x)) ensures after.recs[x].applied == after.recs[x].amount {
      KeyAppended(d.ledger, tx, Full(x));
    }
  }

  lemma {:induction false} ApplyEachPlain(start: Desk, close: int, date: int, n: nat)
    requires Inv(start) && FullMeansApplied(start) && n <= |start.order|
    ensures ApplyEach(start, close, date, n).Ok? ==> FullMeansApplied(ApplyEach(start, close, date, n).value)
  {
    if n > 0 {
      ApplyEachPlain(start, close, date, n - 1);
      ApplyEachKeeps(start, close, date, n - 1);
      var before := ApplyEach(start, close, date, n - 1);
      hide Inv, FullMeansApplied, ApplyStep;
      if before.Ok? { ApplyPlain(before.value, close, start.order[n - 1], date, None, None); }
    }
  }

  lemma KeyLinked(ledger: seq<Tx>, i: nat, tx: Tx, key: Key)
    requires i < |ledger| && ledger[i].link.None? && tx.link.Some?
    ensures KeyUsed(ledger[i := tx], key) <==> KeyUsed(ledger, key) || KeyOf(tx) == Some(key)
  {
    var after := ledger[i := tx];
    if KeyUsed(ledger, key) {
      var k :| 0 <= k < |ledger| && KeyOf(ledger[k]) == Some(key);
      assert KeyOf(after[k]) == Some(key);
    }
    if KeyOf(tx) == Some(key) { assert KeyOf(after[i]) == Some(key); }
  }

  lemma ReconcilePlain(d: Desk, close: int, rec: int, tx: nat)
    requires Inv(d) && FullMeansApplied(d)
    ensures FullMeansApplied(ReconcileStep(d, close, rec, tx).0)
  {
    var (after, outcome) := ReconcileStep(d, close, rec, tx);
    if outcome.Done? {
      ReconcileEffect(d, close, rec, tx);
      ReconcileLinks(d, close, rec, tx);
      hide Inv, ReconcileStep, KeyUsed, Matching;
      forall x | x in after.recs && KeyUsed(after.ledger, Full(x)) ensures after.recs[x].applied == after.recs[x].amount {
        KeyLinked(d.ledger, tx, after.ledger[tx], Full(x));
      }
    }
  }

  lemma ReconcileLinks(d: Desk, close: int, rec: int, tx: nat)
    requires ReconcileStep(d, close, rec, tx).1.Done?
    ensures var after := ReconcileStep(d, close, rec, tx).0;
            && tx < |d.ledger| == |after.ledger| && d.ledger[tx].link.None? && after.ledger[tx].link.Some?
            && KeyOf(after.ledger[tx]) == Some(Reconciles(rec, tx)) && after.ledger == d.ledger[tx := after.ledger[tx]]
  {
    hide Matching, Touches, Earlier, ToCentsEven, StatusOf;
  }

  lemma StepPlain(d: Desk, op: Op)
    requires Inv(d) && FullMeansApplied(d) && Plain(op)
    ensures FullMeansApplied(Step(d, op).0)
  {
    match op {
      case Accept(close, rec) => hide Inv, KeyUsed, ToCentsEven, StatusOf, Guard;
      case Apply(close, rec, date, amount, key) => hide Inv, FullMeansApplied, ApplyStep; ApplyPlain(d, close, rec, date, amount, key);
      case Reconcile(close, rec, tx) => hide Inv, FullMeansApplied, ReconcileStep; ReconcilePlain(d, close, rec, tx);
      case Cancel(close, rec) => hide Inv, KeyUsed, ToCentsEven, StatusOf, Guard;
      case Reverse(close, rec, date, amount, key) =>
      case ApplyAll(close, date) => hide Inv, FullMeansApplied; ApplyEachPlain(d, close, date, |d.order|);
    }
  }

  lemma {:induction false} RunPlain(d: Desk, ops: seq<Op>, n: nat)
    requires Fresh(d) && n <= |ops| && forall i :: 0 <= i < n ==> Plain(ops[i])
    ensures FullMeansApplied(Run(d, ops, n)) && SameFrame(d, Run(d, ops, n))
  {
    hide Step, Inv;
    if n > 0 {
      RunPlain(d, ops, n - 1);
      RunKeeps(d, ops, n - 1);
      hide FullMeansApplied, Fresh;
      StepPlain(Run(d, ops, n - 1), ops[n - 1]);
      StepFrame(Run(d, ops, n - 1), ops[n - 1]);
    }
  }

  lemma {:induction false} NothingToVisit(d: Desk, close: int, date: int, n: nat)
    requires n <= |d.order|
    requires forall rec :: Listed(d, close, rec) ==> RemainingOf(d.recs[rec]) <= 0
    ensures ApplyEach(d, close, date, n) == Ok(d)
  {
    if n > 0 {
      NothingToVisit(d, close, date, n - 1);
      hide ApplyStep, RemainingOf;
    }
  }

  /** Where a used full-application key means a full application, a carried-out apply-all leaves every
      recommendation of the close that was not cancelled applied in full, and calling it again, on any date, is
      carried out without changing anything. */
  lemma FinishesWith(now: Desk, close: int, date: int, later: int)
    requires Inv(now) && FullMeansApplied(now) && Distinct(now.order) && (forall rec :: rec in now.recs ==> rec in now.order)
    requires ApplyAllStep(now, close, date).1.Done?
    ensures var after := ApplyAllStep(now, close, date).0;
            && (forall rec :: Listed(now, close, rec) ==>
                  rec in after.recs && after.recs[rec].status == Applied && after.recs[rec].applied == now.recs[rec].amount)
            && ApplyAllStep(after, close, later) == (after, Done)
  {
    ApplyEachKeeps(now, close, date, |now.order|);
    ApplyEachFrame(now, close, date, |now.order|);
    var after := ApplyAllStep(now, close, date).0;
    forall rec | Listed(now, close, rec)
      ensures rec in after.recs && after.recs[rec].status == Applied && after.recs[rec].applied == now.recs[rec].amount
      ensures RemainingOf(after.recs[rec]) <= 0
    {
      AppliedByAll(now, close, date, rec);
      NothingRemains(after, rec);
      RecHolds(after, rec);
      hide Inv, ApplyEach, ToCentsEven, LinkedSum;
    }
    hide Inv, ToCentsEven, KeyUsed;
    forall rec | Listed(after, close, rec) ensures RemainingOf(after.recs[rec]) <= 0 {
      StaysCancelled(now, close, date, rec);
    }
    NothingToVisit(after, close, later, |after.order|);
  }

  /** So after any run without reversals from fresh closes. */
  lemma ApplyAllFinishes(d: Desk, ops: seq<Op>, close: int, date: int, later: int)
    requires Fresh(d) && Distinct(d.order) && (forall rec :: rec in d.recs ==> rec in d.order)
    requires forall i :: 0 <= i < |ops| ==> Plain(ops[i])
    requires ApplyAllStep(Run(d, ops, |ops|), close, date).1.Done?
    ensures var now := Run(d, ops, |ops|);
            var after := ApplyAllStep(now, close, date).0;
            && (forall rec :: Listed(now, close, rec) ==>
                  rec in after.recs && after.recs[rec].status == Applied && after.recs[rec].applied == now.recs[rec].amount)
            && ApplyAllStep(after, close, later) == (after, Done)
  {
    RunKeeps(d, ops, |ops|);
    RunPlain(d, ops, |ops|);
    hide Inv, Run, Fresh, FullMeansApplied, ApplyAllStep;
    FinishesWith(Run(d, ops, |ops|), close, date, later);
  }

  lemma StaysCancelled(d: Desk, close: int, date: int, rec: int)
    requires ApplyAllStep(d, close, date).1.Done? && Listed(ApplyAllStep(d, close, date).0, close, rec)
    ensures Listed(d, close, rec)
  {
    ApplyEachFrame(d, close, date, |d.order|);
    hide ApplyEach;
    if IsCancelledRec(d, rec) { StepCancelled(d, ApplyAll(close, date), rec); }
  }
}
