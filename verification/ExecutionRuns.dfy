/** What runs of execution requests guarantee: cancellation is final, keys act at most once, linked
    transfers move what is applied, and apply-all finishes the job. */
module ExecutionRuns {
  import opened Money
  import opened Wrappers
  import opened Execution

  // ---- Cancellation is final -----------------------------------------------------------------------------

  predicate IsCancelledRec(d: Desk, rec: int) { rec in d.recs && d.recs[rec].status.Cancelled? }

  lemma {:induction false} ApplyEachCancelled(start: Desk, close: int, date: int, n: nat, rec: int)
    requires IsCancelledRec(start, rec) && n <= |start.order|
    ensures var r := ApplyEach(start, close, date, n);
            r.Ok? ==> IsCancelledRec(r.value, rec) && r.value.recs[rec] == start.recs[rec]
  {
    if n > 0 {
      ApplyEachCancelled(start, close, date, n - 1, rec);
      hide Earlier, RemainingOf, ToCentsEven, Increased;
    }
  }

  lemma StepCancelled(d: Desk, op: Op, rec: int)
    requires IsCancelledRec(d, rec)
    ensures var after := Step(d, op).0; IsCancelledRec(after, rec) && after.recs[rec] == d.recs[rec]
  {
    hide Earlier, RemainingOf, ToCentsEven, Increased, Decreased, Restated, Candidate, Matching, ApplyEach;
    if op.ApplyAll? { ApplyEachCancelled(d, op.close, op.date, |d.order|, rec); }
  }

  /** A cancelled recommendation never changes again. */
  lemma {:induction false} CancelledForever(d: Desk, ops: seq<Op>, k: nat, n: nat, rec: int)
    requires k <= n <= |ops| && IsCancelledRec(Run(d, ops, k), rec)
    ensures rec in Run(d, ops, n).recs && Run(d, ops, n).recs[rec] == Run(d, ops, k).recs[rec]
  {
    hide Step;
    if k < n {
      CancelledForever(d, ops, k, n - 1, rec);
      StepCancelled(Run(d, ops, n - 1), ops[n - 1], rec);
    }
  }

  // ---- What one request does -----------------------------------------------------------------------------

  /** Money, in cents, that a request asks for. */
  function Asked(amount: Option<int>, all: int): int { ToCentsEven(if amount.None? then all else amount.value) }

  /** The close is finalized, its settlement frozen and READY, the recommendation not cancelled; only that
      recommendation changes, and not its terms. */
  ghost predicate ActsOn(d: Desk, after: Desk, close: int, rec: int) {
    && rec in d.recs && rec in after.recs && d.recs[rec].close == close && close in d.closes
    && d.closes[close].status.Finalized? && d.closes[close].ready && d.closes[close].frozen && !d.recs[rec].status.Cancelled?
    && SameTerms(d.recs[rec], after.recs[rec]) && after.recs == d.recs[rec := after.recs[rec]]
  }

  lemma ApplyEffect(d: Desk, close: int, rec: int, date: int, amount: Option<int>, key: Option<Key>)
    requires Inv(d) && ApplyStep(d, close, rec, date, amount, key).1.Done?
    ensures var after := ApplyStep(d, close, rec, date, amount, key).0;
            && ActsOn(d, after, close, rec) && after.recs[rec].accepted
            && var r, q := d.recs[rec], after.recs[rec];
               q.applied == r.applied + Asked(amount, r.amount - r.applied) && r.applied < q.applied <= r.amount
  {
    var r := d.recs[rec];
    assert RecOk(d.ledger, rec, r);
    CentSum(r.amount, r.applied);
    CentSum(r.applied, Asked(amount, r.amount - r.applied));
    hide Inv, RecOk, ToCentsEven, Earlier, StatusOf, IsCents;
  }

  lemma ReconcileEffect(d: Desk, close: int, rec: int, tx: nat)
    requires Inv(d) && ReconcileStep(d, close, rec, tx).1.Done?
    ensures var after := ReconcileStep(d, close, rec, tx).0;
            && ActsOn(d, after, close, rec) && after.recs[rec].accepted && tx < |d.ledger|
            && d.ledger[tx].posted && d.ledger[tx].transfer && d.ledger[tx].link.None? && d.ledger[tx].ownership == d.recs[rec].ownership
            && d.closes[close].windowStart <= d.ledger[tx].date <= d.closes[close].windowEnd
            && var r, q := d.recs[rec], after.recs[rec];
               r.applied <= q.applied <= r.amount && Matching(d.ledger[tx], r.from, r.to) == Some(q.applied - r.applied)
  {
    var r := d.recs[rec];
    assert RecOk(d.ledger, rec, r);
    var matched := Matching(d.ledger[tx], r.from, r.to).value;
    CentSum(r.amount, r.applied);
    CentSum(r.applied, matched);
    assert matched >= 0;
    hide Inv, RecOk, ToCentsEven, SideTotal, Earlier, Touches, StatusOf, Matching, IsCents;
  }

  /** A reconciled transfer leaves the applied amount where it was exactly when it takes at most half a cent
      out of the source account: the tie goes to the even cent, zero. */
  lemma ReconcilesNothing(d: Desk, close: int, rec: int, tx: nat)
    requires Inv(d) && ReconcileStep(d, close, rec, tx).1.Done?
    ensures var after := ReconcileStep(d, close, rec, tx).0;
            && tx < |d.ledger| && rec in d.recs && rec in after.recs
            && (after.recs[rec].applied == d.recs[rec].applied
                <==> 2 * SideTotal(d.ledger[tx].entries, d.recs[rec].from, false, |d.ledger[tx].entries|) <= CENT)
  {
    ReconcileEffect(d, close, rec, tx);
    var entries := d.ledger[tx].entries;
    HalfCent(SideTotal(entries, d.recs[rec].from, false, |entries|));
    hide Inv, ReconcileStep, ToCentsEven, SideTotal;
  }

  lemma HalfCent(u: int)
    requires u > 0
    ensures ToCentsEven(u) == 0 <==> 2 * u <= CENT
  {
  }

  /** What an apply or a reverse posts: one transfer, from one account to the other, linked to the recommendation. */
  ghost predicate Posts(d: Desk, after: Desk, rec: int, date: int, from: int, to: int, amount: int) {
    && |after.ledger| == |d.ledger| + 1 && after.ledger[..|d.ledger|] == d.ledger
    && var tx := after.ledger[|d.ledger|];
       && tx.posted && tx.transfer && tx.date == date && tx.link.Some? && tx.link.value.rec == rec && tx.link.value.amount == amount
       && Impact(tx, from) == -amount && Impact(tx, to) == amount
       && forall a :: a != from && a != to ==> Impact(tx, a) == 0
  }

  lemma PostingImpact(date: int, r: Rec, from: int, to: int, amount: int, link: Link, a: int)
    requires from != to
    ensures Impact(Posting(date, r, from, to, amount, link), a) == if a == to then amount else if a == from then -amount else 0
  {
    var entries := TransferEntries(from, to, amount);
    TwoSides(entries, a, true);
    TwoSides(entries, a, false);
  }

  /** A carried-out apply moves exactly what it applies from the source to the destination. */
  lemma ApplyPosts(d: Desk, close: int, rec: int, date: int, amount: Option<int>, key: Option<Key>)
    requires Inv(d) && ApplyStep(d, close, rec, date, amount, key).1.Done?
    ensures var after := ApplyStep(d, close, rec, date, amount, key).0;
            && rec in d.recs && rec in after.recs
            && Posts(d, after, rec, date, d.recs[rec].from, d.recs[rec].to, after.recs[rec].applied - d.recs[rec].applied)
  {
    ApplyEffect(d, close, rec, date, amount, key);
    RecHolds(d, rec);
    var after := ApplyStep(d, close, rec, date, amount, key).0;
    var r := d.recs[rec];
    var applied := Asked(amount, r.amount - r.applied);
    CentSum(r.amount, r.applied);
    hide Inv, Impact, Earlier, StatusOf, IsCents, ToCentsEven, Increased, LinkedSum;
    var tx := after.ledger[|d.ledger|];
    assert tx == Posting(date, r, r.from, r.to, applied, tx.link.value);
    forall a ensures Impact(tx, a) == if a == r.to then applied else if a == r.from then -applied else 0 {
      PostingImpact(date, r, r.from, r.to, applied, tx.link.value, a);
    }
  }

  /** A carried-out reversal takes back what was asked, or everything, keeps the acceptance, and moves exactly
      that from the destination back to the source. */
  lemma ReverseEffect(d: Desk, close: int, rec: int, date: int, amount: Option<int>, key: Option<Key>)
    requires Inv(d) && ReverseStep(d, close, rec, date, amount, key).1.Done?
    ensures var after := ReverseStep(d, close, rec, date, amount, key).0;
            && ActsOn(d, after, close, rec)
            && var r, q := d.recs[rec], after.recs[rec];
               && q.accepted == r.accepted && q.applied == r.applied - Asked(amount, r.applied) && 0 <= q.applied < r.applied
               && Posts(d, after, rec, date, r.to, r.from, r.applied - q.applied)
  {
    RecHolds(d, rec);
    var after := ReverseStep(d, close, rec, date, amount, key).0;
    var r := d.recs[rec];
    var reversed := Asked(amount, r.applied);
    CentSum(r.amount, r.applied);
    CentSum(r.applied, reversed);
    hide Inv, Impact, Earlier, StatusOf, IsCents, ToCentsEven, LinkedSum;
    var tx := after.ledger[|d.ledger|];
    assert tx == Posting(date, r, r.to, r.from, reversed, tx.link.value);
    forall a ensures Impact(tx, a) == if a == r.from then reversed else if a == r.to then -reversed else 0 {
      PostingImpact(date, r, r.to, r.from, reversed, tx.link.value, a);
    }
  }

  // ---- Keys act once -------------------------------------------------------------------------------------

  ghost predicate KeyUsed(ledger: seq<Tx>, key: Key) { exists i :: 0 <= i < |ledger| && KeyOf(ledger[i]) == Some(key) }

  /** The ledger only grows, and a link once set stays. */
  ghost predicate Grows(before: seq<Tx>, after: seq<Tx>) {
    |before| <= |after| && forall i :: 0 <= i < |before| && before[i].link.Some? ==> after[i] == before[i]
  }

  lemma {:induction false} ApplyEachGrows(start: Desk, close: int, date: int, n: nat)
    requires n <= |start.order|
    ensures ApplyEach(start, close, date, n).Ok? ==> Grows(start.ledger, ApplyEach(start, close, date, n).value.ledger)
  {
    if n > 0 {
      ApplyEachGrows(start, close, date, n - 1);
      hide Earlier, RemainingOf, ToCentsEven, Increased, Guard;
    }
  }

  lemma StepGrows(d: Desk, op: Op)
    ensures Grows(d.ledger, Step(d, op).0.ledger)
  {
    hide Earlier, RemainingOf, ToCentsEven, Increased, Decreased, Restated, Matching, ApplyEach, Guard;
    if op.ApplyAll? { ApplyEachGrows(d, op.close, op.date, |d.order|); }
  }

  lemma {:induction false} RunGrows(d: Desk, ops: seq<Op>, k: nat, n: nat)
    requires k <= n <= |ops|
    ensures Grows(Run(d, ops, k).ledger, Run(d, ops, n).ledger)
  {
    hide Step;
    if k < n {
      RunGrows(d, ops, k, n - 1);
      StepGrows(Run(d, ops, n - 1), ops[n - 1]);
    }
  }

  /** The key an apply or reverse request carries or is given. */
  function RequestKey(op: Op): Option<Key> {
    match op
    case Apply(_, rec, _, _, key) => if key.None? then Some(Full(rec)) else key
    case Reverse(_, rec, _, amount, key) => if key.None? && amount.None? then Some(ReverseFull(rec)) else key
    case _ => None
  }

  lemma UsedKeyChangesNothing(d: Desk, op: Op)
    requires RequestKey(op).Some? && KeyUsed(d.ledger, RequestKey(op).value)
    ensures Step(d, op).0 == d
  {
    hide RemainingOf, ToCentsEven, Increased, Decreased, Guard;
  }

  lemma DoneUsesKey(d: Desk, op: Op)
    requires RequestKey(op).Some? && Step(d, op).1.Done?
    ensures KeyUsed(Step(d, op).0.ledger, RequestKey(op).value)
  {
    hide RemainingOf, ToCentsEven, Increased, Decreased, Guard;
    var after := Step(d, op).0.ledger;
    assert KeyOf(after[|after| - 1]) == RequestKey(op);
  }

  /** Once an apply or reverse request has been carried out, repeating its key at any later point of any
      run, for any recommendation, changes nothing. */
  lemma KeysActOnce(d: Desk, ops: seq<Op>, i: nat, j: nat)
    requires i < j < |ops| && RequestKey(ops[i]).Some? && RequestKey(ops[i]) == RequestKey(ops[j])
    requires Step(Run(d, ops, i), ops[i]).1.Done?
    ensures Step(Run(d, ops, j), ops[j]).0 == Run(d, ops, j)
  {
    hide *;
    RunNext(d, ops, i);
    DoneUsesKey(Run(d, ops, i), ops[i]);
    RunGrows(d, ops, i + 1, j);
    KeyStays(Run(d, ops, i + 1).ledger, Run(d, ops, j).ledger, RequestKey(ops[i]).value);
    UsedKeyChangesNothing(Run(d, ops, j), ops[j]);
  }

  lemma RunNext(d: Desk, ops: seq<Op>, i: nat)
    requires i < |ops|
    ensures Run(d, ops, i + 1) == Step(Run(d, ops, i), ops[i]).0
  {
    hide Step;
  }

  lemma KeyStays(before: seq<Tx>, after: seq<Tx>, key: Key)
    requires Grows(before, after) && KeyUsed(before, key)
    ensures KeyUsed(after, key)
  {
    var i :| 0 <= i < |before| && KeyOf(before[i]) == Some(key);
    assert after[i] == before[i];
  }

  // ---- When a request is carried out -----------------------------------------------------------------------

  /** The recommendation of a finalized close with a frozen READY settlement, not cancelled. */
  predicate Workable(d: Desk, close: int, rec: int) {
    && rec in d.recs && d.recs[rec].close == close && close in d.closes && !d.recs[rec].status.Cancelled?
    && d.closes[close].status.Finalized? && d.closes[close].ready && d.closes[close].frozen
  }

  predicate BothUsable(d: Desk, r: Rec) { r.from in d.usable && r.to in d.usable }

  ghost predicate KeyFree(ledger: seq<Tx>, key: Option<Key>) { forall i :: 0 <= i < |ledger| ==> KeyOf(ledger[i]) != key }

  predicate KeyFits(key: Option<Key>) { key.Some? && key.value.Text? ==> |key.value.text| <= 128 }

  /** Any workable recommendation can be accepted. */
  lemma AcceptIff(d: Desk, close: int, rec: int)
    ensures AcceptStep(d, close, rec).1.Done? <==> Workable(d, close, rec)
    ensures var after := AcceptStep(d, close, rec).0;
            Workable(d, close, rec) ==>
              ActsOn(d, after, close, rec) && after.ledger == d.ledger && after.recs[rec].accepted && after.recs[rec].applied == d.recs[rec].applied
  {
    hide ToCentsEven, StatusOf;
  }

  /** It can be cancelled exactly while nothing of it is applied. */
  lemma CancelIff(d: Desk, close: int, rec: int)
    requires Inv(d)
    ensures CancelStep(d, close, rec).1.Done? <==> Workable(d, close, rec) && d.recs[rec].applied == 0
    ensures var after := CancelStep(d, close, rec).0;
            CancelStep(d, close, rec).1.Done? ==>
              ActsOn(d, after, close, rec) && after.ledger == d.ledger && after.recs[rec].status.Cancelled? && after.recs[rec].applied == 0
  {
    if rec in d.recs { RecHolds(d, rec); }
    hide Inv, LinkedSum, StatusOf;
  }

  lemma EarlierIs(d: Desk, key: Option<Key>, rec: int)
    ensures Earlier(d, key, rec).None? <==> KeyFree(d.ledger, key)
  {
  }

  /** An apply is carried out exactly when a positive amount within what remains is asked, between usable
      accounts, under a fresh key; only the whole remainder needs none of the client. */
  lemma ApplyIff(d: Desk, close: int, rec: int, date: int, amount: Option<int>, key: Option<Key>)
    requires Inv(d)
    ensures ApplyStep(d, close, rec, date, amount, key).1.Done?
            <==> && Workable(d, close, rec) && BothUsable(d, d.recs[rec]) && KeyFits(key)
                 && KeyFree(d.ledger, if key.None? then Some(Full(rec)) else key)
                 && var left := d.recs[rec].amount - d.recs[rec].applied;
                    0 < Asked(amount, left) <= left && (key.None? ==> Asked(amount, left) == left)
  {
    EarlierIs(d, if key.None? then Some(Full(rec)) else key, rec);
    if rec in d.recs {
      RecHolds(d, rec);
      CentSum(d.recs[rec].amount, d.recs[rec].applied);
      CentSum(d.recs[rec].amount - d.recs[rec].applied, 0);
    }
    hide Inv, LinkedSum, StatusOf, ToCentsEven, KeyFree, Earlier, IsCents, Increased;
  }

  /** A reversal, exactly when a positive amount within what is applied is asked under a fresh key. */
  lemma ReverseIff(d: Desk, close: int, rec: int, date: int, amount: Option<int>, key: Option<Key>)
    requires Inv(d)
    ensures var used := if key.None? && amount.None? then Some(ReverseFull(rec)) else key;
            ReverseStep(d, close, rec, date, amount, key).1.Done?
            <==> && Workable(d, close, rec) && BothUsable(d, d.recs[rec]) && KeyFits(key) && KeyFree(d.ledger, used)
                 && 0 < Asked(amount, d.recs[rec].applied) <= d.recs[rec].applied
  {
    EarlierIs(d, if key.None? && amount.None? then Some(ReverseFull(rec)) else key, rec);
    if rec in d.recs {
      RecHolds(d, rec);
      CentSum(d.recs[rec].applied, 0);
    }
    hide Inv, LinkedSum, StatusOf, ToCentsEven, KeyFree, Earlier, IsCents, Decreased;
  }

  /** The first transaction with a key is linked to the recommendation. */
  ghost predicate FirstUse(ledger: seq<Tx>, key: Option<Key>, rec: int) {
    exists i :: 0 <= i < |ledger| && KeyOf(ledger[i]) == key && ledger[i].link.Some? && ledger[i].link.value.rec == rec
                && forall j :: 0 <= j < i ==> KeyOf(ledger[j]) != key
  }

  lemma EarlierUse(d: Desk, key: Option<Key>, rec: int)
    requires !KeyFree(d.ledger, key)
    ensures Earlier(d, key, rec) == Some(if FirstUse(d.ledger, key, rec) then Replayed else Rejected(KeyTaken))
  {
    var found := FindKey(d.ledger, key, |d.ledger|);
    FirstFound(d.ledger, key, |d.ledger|);
    if FirstUse(d.ledger, key, rec) {
      var i :| 0 <= i < |d.ledger| && KeyOf(d.ledger[i]) == key && d.ledger[i].link.Some? && d.ledger[i].link.value.rec == rec
               && forall j :: 0 <= j < i ==> KeyOf(d.ledger[j]) != key;
      assert i == found.value;
    }
  }

  lemma {:induction false} FirstFound(ledger: seq<Tx>, key: Option<Key>, n: nat)
    requires n <= |ledger|
    ensures FindKey(ledger, key, n).Some? ==> forall j :: 0 <= j < FindKey(ledger, key, n).value ==> KeyOf(ledger[j]) != key
  {
    if n > 0 { FirstFound(ledger, key, n - 1); }
  }

  /** Repeating an apply under a key already used, even when nothing remains to be applied, is answered as done if it was
      for this recommendation and refused if it was for another. */
  lemma AppliedAgain(d: Desk, close: int, rec: int, date: int, amount: Option<int>, key: Option<Key>)
    requires Workable(d, close, rec) && (key.Some? || amount.None?)
    requires !KeyFree(d.ledger, if key.None? then Some(Full(rec)) else key)
    ensures ApplyStep(d, close, rec, date, amount, key)
            == (d, if FirstUse(d.ledger, if key.None? then Some(Full(rec)) else key, rec) then Replayed else Rejected(KeyTaken))
  {
    EarlierUse(d, if key.None? then Some(Full(rec)) else key, rec);
    hide Earlier, KeyFree, FirstUse, ToCentsEven, Increased;
  }

  /** So is repeating a reversal, even when nothing is left to take back. */
  lemma ReversedAgain(d: Desk, close: int, rec: int, date: int, amount: Option<int>, key: Option<Key>)
    requires Workable(d, close, rec) && (key.Some? || amount.None?) && KeyFits(key)
    requires !KeyFree(d.ledger, if key.None? then Some(ReverseFull(rec)) else key)
    ensures ReverseStep(d, close, rec, date, amount, key)
            == (d, if FirstUse(d.ledger, if key.None? then Some(ReverseFull(rec)) else key, rec) then Replayed else Rejected(KeyTaken))
  {
    EarlierUse(d, if key.None? then Some(ReverseFull(rec)) else key, rec);
    hide Earlier, KeyFree, FirstUse, ToCentsEven, Decreased;
  }

  /** A reconciliation, exactly for a posted transfer without link, dated in the window, of the same owner, that
      touches both accounts and takes out of the one, to the cent, what it brings into the other, within what
      remains. */
  lemma ReconcileIff(d: Desk, close: int, rec: int, tx: nat)
    requires Inv(d)
    ensures ReconcileStep(d, close, rec, tx).1.Done?
            <==> && Workable(d, close, rec) && BothUsable(d, d.recs[rec]) && tx < |d.ledger| && KeyFree(d.ledger, Some(Reconciles(rec, tx)))
                 && var r, t, c := d.recs[rec], d.ledger[tx], d.closes[close];
                    var out, into := SideTotal(t.entries, r.from, false, |t.entries|), SideTotal(t.entries, r.to, true, |t.entries|);
                    && t.posted && t.transfer && t.link.None? && t.ownership == r.ownership && c.windowStart <= t.date <= c.windowEnd
                    && Touches(t, r.from) && Touches(t, r.to)
                    && out > 0 && ToCentsEven(out) == ToCentsEven(into) && ToCentsEven(out) <= r.amount - r.applied
  {
    EarlierIs(d, Some(Reconciles(rec, tx)), rec);
    if rec in d.recs {
      RecHolds(d, rec);
      CentSum(d.recs[rec].amount, d.recs[rec].applied);
    }
    hide Inv, LinkedSum, StatusOf, ToCentsEven, KeyFree, Earlier, IsCents, SideTotal, Touches, Increased;
  }

  /** What the status of a recommendation says, in every reachable state: cancelled with nothing applied, or how
      far it is applied and, while nothing is, whether it was accepted. */
  lemma StatusMeans(d: Desk, rec: int)
    requires Inv(d) && rec in d.recs
    ensures var r := d.recs[rec];
            match r.status
            case Cancelled => r.applied == 0
            case Applied => r.applied == r.amount
            case PartiallyApplied => 0 < r.applied < r.amount
            case Accepted => r.applied == 0 && r.accepted
            case Recommended => r.applied == 0 && !r.accepted
  {
    RecHolds(d, rec);
    hide Inv, LinkedSum;
  }

  // ---- Acceptance and cancellation last -----------------------------------------------------------------------

  predicate IsAccepted(d: Desk, rec: int) { rec in d.recs && d.recs[rec].accepted }

  lemma {:induction false} ApplyEachAccepted(start: Desk, close: int, date: int, n: nat, rec: int)
    requires IsAccepted(start, rec) && n <= |start.order|
    ensures ApplyEach(start, close, date, n).Ok? ==> IsAccepted(ApplyEach(start, close, date, n).value, rec)
  {
    if n > 0 {
      ApplyEachAccepted(start, close, date, n - 1, rec);
      hide Earlier, RemainingOf, ToCentsEven, StatusOf;
    }
  }

  lemma StepAccepted(d: Desk, op: Op, rec: int)
    requires IsAccepted(d, rec)
    ensures IsAccepted(Step(d, op).0, rec)
  {
    hide Earlier, RemainingOf, ToCentsEven, StatusOf, Candidate, Matching, ApplyEach;
    if op.ApplyAll? { ApplyEachAccepted(d, op.close, op.date, |d.order|, rec); }
  }

  /** What was accepted, by itself or by being applied or reconciled, stays accepted through any run. */
  lemma {:induction false} AcceptedForever(d: Desk, ops: seq<Op>, k: nat, n: nat, rec: int)
    requires k <= n <= |ops| && IsAccepted(Run(d, ops, k), rec)
    ensures IsAccepted(Run(d, ops, n), rec)
  {
    hide Step, IsAccepted;
    if k < n {
      AcceptedForever(d, ops, k, n - 1, rec);
      StepAccepted(Run(d, ops, n - 1), ops[n - 1], rec);
    }
  }

  /** A carried-out cancellation leaves the recommendation cancelled, with nothing applied, for the rest of the run. */
  lemma CancelledAfter(d: Desk, ops: seq<Op>, i: nat, n: nat)
    requires Fresh(d) && i < n <= |ops| && ops[i].Cancel? && Step(Run(d, ops, i), ops[i]).1.Done?
    ensures IsCancelledRec(Run(d, ops, n), ops[i].rec) && Run(d, ops, n).recs[ops[i].rec].applied == 0
  {
    RunKeeps(d, ops, i);
    CancelIff(Run(d, ops, i), ops[i].close, ops[i].rec);
    assert Run(d, ops, i + 1) == Step(Run(d, ops, i), ops[i]).0;
    hide Run, Fresh, Inv, CancelStep;
    CancelledForever(d, ops, i + 1, n, ops[i].rec);
  }

  // ---- Linked transfers move what is applied -------------------------------------------------------------

  function Impact(tx: Tx, account: int): int {
    SideTotal(tx.entries, account, true, |tx.entries|) - SideTotal(tx.entries, account, false, |tx.entries|)
  }

  /** What the transactions linked to a recommendation move on an account. */
  function LinkedImpact(ledger: seq<Tx>, rec: int, account: int, n: nat): int
    requires n <= |ledger|
  {
    if n == 0 then 0 else
    LinkedImpact(ledger, rec, account, n - 1)
    + if ledger[n - 1].link.Some? && ledger[n - 1].link.value.rec == rec then Impact(ledger[n - 1], account) else 0
  }

  /** A transfer in whole cents with exactly two positive entries. */
  ghost predicate PlainTransfer(tx: Tx) {
    |tx.entries| == 2 && forall i :: 0 <= i < 2 ==> tx.entries[i].amount > 0 && IsCents(tx.entries[i].amount)
  }

  lemma TwoSides(entries: seq<Entry>, account: int, debit: bool)
    requires |entries| == 2
    ensures SideTotal(entries, account, debit, 2)
            == (if entries[0].account == account && entries[0].debit == debit then entries[0].amount else 0)
               + (if entries[1].account == account && entries[1].debit == debit then entries[1].amount else 0)
  {
    assert SideTotal(entries, account, debit, 1) == SideTotal(entries, account, debit, 0)
           + (if entries[0].account == account && entries[0].debit == debit then entries[0].amount else 0);
  }

  /** A linked plain transfer moves its signed amount from the source to the destination. */
  lemma LinkedTransferMoves(recs: map<int, Rec>, tx: Tx)
    requires tx.link.Some? && LinkOk(recs, tx) && PlainTransfer(tx) && recs[tx.link.value.rec].from != recs[tx.link.value.rec].to
    ensures var r := recs[tx.link.value.rec];
            Impact(tx, r.from) == -Signed(tx.link.value) && Impact(tx, r.to) == Signed(tx.link.value)
  {
    var r := recs[tx.link.value.rec];
    TwoSides(tx.entries, r.from, true);
    TwoSides(tx.entries, r.from, false);
    TwoSides(tx.entries, r.to, true);
    TwoSides(tx.entries, r.to, false);
    hide SideTotal;
    if tx.link.value.action.Reconciliation? {
      MatchedSides(tx, r.from, r.to);
    }
    hide Matching, IsCents;
  }

  lemma MatchedSides(tx: Tx, source: int, destination: int)
    requires PlainTransfer(tx) && Matching(tx, source, destination).Some?
    ensures var out := SideTotal(tx.entries, source, false, |tx.entries|);
            && Matching(tx, source, destination) == Some(out) && out > 0
            && SideTotal(tx.entries, destination, true, |tx.entries|) == out
  {
    TwoSides(tx.entries, source, false);
    TwoSides(tx.entries, destination, true);
    var out := SideTotal(tx.entries, source, false, |tx.entries|);
    var into := SideTotal(tx.entries, destination, true, |tx.entries|);
    assert IsCents(out) && IsCents(into);
    hide SideTotal, IsCents;
  }

  lemma {:induction false} LinkedImpactIsSum(recs: map<int, Rec>, ledger: seq<Tx>, rec: int, n: nat)
    requires rec in recs && recs[rec].from != recs[rec].to && n <= |ledger|
    requires forall i :: 0 <= i < |ledger| ==> LinkOk(recs, ledger[i])
    requires forall i :: 0 <= i < |ledger| && ledger[i].link.Some? && ledger[i].link.value.rec == rec ==> PlainTransfer(ledger[i])
    ensures LinkedImpact(ledger, rec, recs[rec].from, n) == -LinkedSum(ledger, rec, n)
    ensures LinkedImpact(ledger, rec, recs[rec].to, n) == LinkedSum(ledger, rec, n)
  {
    if n > 0 {
      LinkedImpactIsSum(recs, ledger, rec, n - 1);
      var tx := ledger[n - 1];
      assert LinkOk(recs, tx);
      if tx.link.Some? && tx.link.value.rec == rec { LinkedTransferMoves(recs, tx); }
      hide LinkOk, Impact, PlainTransfer;
    }
  }

  /** The transactions linked to a recommendation are plain transfers. */
  ghost predicate PlainlyLinked(ledger: seq<Tx>, rec: int) {
    forall i :: 0 <= i < |ledger| && ledger[i].link.Some? && ledger[i].link.value.rec == rec ==> PlainTransfer(ledger[i])
  }

  lemma AppliedIsMovedAt(d: Desk, rec: int)
    requires Inv(d) && rec in d.recs && PlainlyLinked(d.ledger, rec)
    ensures LinkedImpact(d.ledger, rec, d.recs[rec].from, |d.ledger|) == -d.recs[rec].applied
    ensures LinkedImpact(d.ledger, rec, d.recs[rec].to, |d.ledger|) == d.recs[rec].applied
  {
    assert RecOk(d.ledger, rec, d.recs[rec]);
    hide LinkOk, StatusOf, LinkedSum, LinkedImpact, PlainTransfer;
    LinkedImpactIsSum(d.recs, d.ledger, rec, |d.ledger|);
  }

  /** At any point of any run the transactions linked to a recommendation, when they are plain transfers,
      have changed its source account by minus the applied amount and its destination by the applied amount. */
  lemma AppliedIsMoved(d: Desk, ops: seq<Op>, n: nat, rec: int)
    requires Fresh(d) && n <= |ops| && rec in Run(d, ops, n).recs && PlainlyLinked(Run(d, ops, n).ledger, rec)
    ensures var now := Run(d, ops, n);
            && LinkedImpact(now.ledger, rec, now.recs[rec].from, |now.ledger|) == -now.recs[rec].applied
            && LinkedImpact(now.ledger, rec, now.recs[rec].to, |now.ledger|) == now.recs[rec].applied
  {
    RunKeeps(d, ops, n);
    hide Run, Fresh, Inv, LinkedImpact;
    AppliedIsMovedAt(Run(d, ops, n), rec);
  }
}
