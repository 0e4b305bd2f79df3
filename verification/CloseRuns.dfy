/** What runs of close requests guarantee: sealed closes never change, READY periods tile the calendar,
    and liquidity telescopes along a chain of closes. */
module CloseRuns {
  import opened Money
  import opened Wrappers
  import opened FiniteSums
  import Allocation
  import opened Positions
  import opened Calendar
  import opened Execution
  import ExecutionRuns
  import ApplyAllRuns
  import opened MonthlyClose

  // ---- What finalizing reads -------------------------------------------------------------------------------

  /** A settlement opened from another one starts by the day after the month ends. */
  lemma OpensInTime(o: Office, m: int)
    requires MonthsOk(o.months)
    ensures MonthStart(m) <= MonthEnd(m)
    ensures var p := Previous(o.months, m); p.Some? ==> o.months[p.value].snapshot.value.end <= MonthEnd(m)
  {
    var p := Previous(o.months, m);
    StartBeforeEnd(m);
    if p.Some? {
      PreviousIsReady(o.months, m);
      assert MonthOk(o.months, p.value);
      hide MonthsOk, MonthOk, MonthEnd, MonthStart, Previous;
      MonthsAreOrdered(p.value, m);
    }
  }

  /** A draft close and only a draft close is finalized.  It opens with the liquidity of the close before if
      that one is settled and shows one, else with the summary; in cents its liquidity is its opening plus
      income, less expense outside the perimeter, plus adjustments, plus the residual; it gets a settlement
      exactly when the profile is enabled, READY exactly when nothing blocks it and it does not open after the
      month ends; and only a READY settlement brings recommendations, all untouched. */
  lemma FinalizeReads(o: Office, m: int, r: Report)
    requires MonthsOk(o.months)
    ensures FinalizeStep(o, m, r).1 <==> m in o.months && o.months[m].status.Draft?
    ensures var after := FinalizeStep(o, m, r).0;
            FinalizeStep(o, m, r).1 ==>
              && m in after.months && after.months[m].status.Finalized? && after.months[m].totals.Some?
              && var t := after.months[m].totals.value;
                 var s := after.months[m].snapshot;
                 && t.income == r.income && t.expense == r.expense && t.liquidity == r.liquidity
                 && (if Settled(o.months, m - 1) && o.months[m - 1].totals.Some? && o.months[m - 1].totals.value.liquidity.Some?
                     then t.opening == o.months[m - 1].totals.value.liquidity && t.fromClose else t.opening == r.summary && !t.fromClose)
                 && (t.opening.Some? && r.liquidity.Some? && IsCents(r.liquidity.value)
                     && IsCents(t.opening.value + r.income - r.external + r.adjustments) ==>
                       t.residual.Some? && r.liquidity.value == t.opening.value + r.income - r.external + r.adjustments + t.residual.value)
                 && (s.Some? <==> o.profile.enabled)
                 && (s.Some? ==> (s.value.ready <==> r.clear && s.value.start <= s.value.end + 1))
                 && (forall id :: id in after.recs && id !in o.recs ==>
                       s.Some? && s.value.ready && after.recs[id].close == m && after.recs[id].applied == 0 && after.recs[id].status.Recommended?)
  {
    hide IsCents;
    OpensInTime(o, m);
    hide MonthsOk;
    var after := FinalizeStep(o, m, r).0;
    if FinalizeStep(o, m, r).1 {
      var t := TotalsOf(o, m, r);
      if t.opening.Some? && r.liquidity.Some? && IsCents(r.liquidity.value)
         && IsCents(t.opening.value + r.income - r.external + r.adjustments) {
        CentsAdd(r.liquidity.value, t.opening.value + r.income - r.external + r.adjustments);
      }
    }
    hide ToCents, Previous, Opening, NewOrder, MonthEnd, MonthStart;
  }

  /** What a finalize freezes: the account rows of the report, and, when the settlement is READY, one untouched
      recommendation for each previewed row, with that row's source, destination, owner and amount, listed after
      the others in the order of the rows; otherwise no recommendation.  The others stay as they are. */
  lemma FinalizeFreezes(o: Office, m: int, r: Report)
    requires RecsOk(o) && FinalizeStep(o, m, r).1
    ensures var after := FinalizeStep(o, m, r).0;
            var n := if ReadyAt(after.months, m) then |r.rows| else 0;
            && m in after.months
            && (after.months[m].snapshot.Some? ==> after.months[m].snapshot.value.accounts == r.accounts && after.months[m].snapshot.value.end == MonthEnd(m))
            && (forall id :: id in after.recs <==> id in o.recs || o.next <= id < o.next + n)
            && (forall id :: id in o.recs ==> after.recs[id] == o.recs[id])
            && (forall id :: o.next <= id < o.next + n ==>
                  var q, row := after.recs[id], r.rows[id - o.next];
                  && q.close == m && q.from == row.from && q.to == row.to && q.ownership == row.ownership && q.amount == row.amount
                  && q.applied == 0 && !q.accepted && q.status.Recommended?)
            && |after.order| == |o.order| + n && after.order[..|o.order|] == o.order
            && (forall j :: |o.order| <= j < |after.order| ==> after.order[j] == o.next + j - |o.order|)
  {
    hide ToCents, Previous, Opening, OpeningStart, MonthEnd, MonthStart, TotalsOf;
  }

  // ---- Sealed closes ---------------------------------------------------------------------------------------

  /** A close that can no longer be reopened: locked, or with settlement movements in the ledger. */
  ghost predicate Sealed(o: Office, m: int) {
    Settled(o.months, m) && (o.months[m].status.Locked? || Moved(o.recs, o.ledger, m))
  }

  /** Still finalized, locked if it was, with the same totals and settlement. */
  ghost predicate SameClose(before: map<int, Month>, after: map<int, Month>, k: int) {
    && Settled(before, k) && Settled(after, k)
    && before[k].totals == after[k].totals && before[k].snapshot == after[k].snapshot
    && (before[k].status.Locked? ==> after[k].status.Locked?)
  }

  lemma MovedIsSettled(o: Office, m: int)
    requires OfficeInv(o) && Moved(o.recs, o.ledger, m)
    ensures ReadyAt(o.months, m)
  {
    var i :| 0 <= i < |o.ledger| && LinkedTo(o.recs, o.ledger[i], m);
    hide Execution.Inv, MonthsOk;
    assert ReadyAt(o.months, o.recs[o.ledger[i].link.value.rec].close);
  }

  /** Settlement movements stay in the ledger, linked to the same close. */
  lemma MovedStays(o: Office, q: Request, m: int)
    requires OfficeInv(o) && Moved(o.recs, o.ledger, m)
    ensures Moved(Serve(o, q).0.recs, Serve(o, q).0.ledger, m)
  {
    var i :| 0 <= i < |o.ledger| && LinkedTo(o.recs, o.ledger[i], m);
    var after := Serve(o, q).0;
    var id := o.ledger[i].link.value.rec;
    if q.Execute? {
      ExecutionRuns.StepGrows(DeskOf(o), q.op);
      ApplyAllRuns.StepFrame(DeskOf(o), q.op);
      hide Execution.Step, Execution.Inv, MonthsOk;
      assert after.ledger[i] == o.ledger[i];
      assert LinkedTo(after.recs, after.ledger[i], m);
    } else if q.Finalize? {
      hide Execution.Inv, MonthsOk, SnapshotOf, TotalsOf;
      assert id < o.next;
      assert LinkedTo(after.recs, after.ledger[i], m);
    } else if q.Reopen? {
      MovedIsSettled(o, m);
      hide Execution.Inv, MonthsOk, OfficeInv, Kept;
      assert LinkedTo(after.recs, after.ledger[i], m);
    } else {
      hide Execution.Inv, MonthsOk, OfficeInv;
      assert after.recs == o.recs && after.ledger[i] == o.ledger[i];
      assert LinkedTo(after.recs, after.ledger[i], m);
    }
  }

  lemma StepSeals(o: Office, q: Request, m: int, k: int)
    requires OfficeInv(o) && Sealed(o, m) && k <= m && Settled(o.months, k)
    ensures Sealed(Serve(o, q).0, m) && SameClose(o.months, Serve(o, q).0.months, k)
  {
    if Moved(o.recs, o.ledger, m) { MovedStays(o, q, m); }
    StepKeepsClose(o, q, m, k);
    StepKeepsClose(o, q, m, m);
    hide Moved, OfficeInv, Serve;
  }

  lemma StepKeepsClose(o: Office, q: Request, m: int, k: int)
    requires Sealed(o, m) && k <= m && Settled(o.months, k)
    ensures SameClose(o.months, Serve(o, q).0.months, k)
  {
    hide Moved, Kept;
    match q {
      case Reopen(e) => ReopenKeepsClose(o, e, m, k);
      case Finalize(_, _) => hide SnapshotOf, TotalsOf, NewRecs, NewOrder;
      case Execute(_) => hide Execution.Step;
      case _ => hide RebaselineStep, ActivateStep;
    }
  }

  /** A finalized close goes back to draft exactly when no later settled close is locked and neither it nor
      a later settled close has settlement movements; every later settled close then goes back with it. */
  lemma ReopensIff(o: Office, m: int)
    requires m in o.months
    ensures ReopenStep(o, m).1
            <==> o.months[m].status.Finalized? && forall k :: Settled(o.months, k) && k >= m ==> !Sealed(o, k)
    ensures ReopenStep(o, m).1 ==>
              forall k :: k in o.months ==>
                var after := ReopenStep(o, m).0.months;
                k in after && after[k] == if k >= m && Settled(o.months, k) then Month(Draft, None, None) else o.months[k]
  {
    hide Moved, Kept;
    var chain := Cascade(o.months, m);
    forall k | Settled(o.months, k) && k >= m ensures k in chain { assert k in o.months; }
    assert o.months[m].status.Finalized? ==> m in chain;
  }

  lemma ReopenKeepsClose(o: Office, e: int, m: int, k: int)
    requires Sealed(o, m) && k <= m && Settled(o.months, k)
    ensures SameClose(o.months, ReopenStep(o, e).0.months, k)
  {
    if e in o.months { ReopensIff(o, e); }
    hide Sealed, Cascade, Moved, Kept;
  }

  /** Once a close is locked or its settlement has moved money, that close and every earlier finalized one
      keep their totals and their settlement for good: neither it nor an earlier close can be reopened. */
  lemma {:induction false} SealedForever(o: Office, qs: seq<Request>, i: nat, n: nat, m: int, k: int)
    requires Blank(o) && i <= n <= |qs| && forall j :: 0 <= j < |qs| ==> GoodRequest(qs[j])
    requires Sealed(Served(o, qs, i), m) && k <= m && Settled(Served(o, qs, i).months, k)
    ensures Sealed(Served(o, qs, n), m) && SameClose(Served(o, qs, i).months, Served(o, qs, n).months, k)
  {
    hide Serve, Sealed;
    if i < n {
      SealedForever(o, qs, i, n - 1, m, k);
      ServedKeeps(o, qs, n - 1);
      hide OfficeInv, Blank, GoodRequest;
      StepSeals(Served(o, qs, n - 1), qs[n - 1], m, k);
    }
  }

  /** A carried-out reopen deletes exactly the recommendations of that close and the later ones, and no ledger
      transaction. */
  lemma ReopenDeletes(o: Office, m: int)
    requires RecsOk(o) && ReopenStep(o, m).1
    ensures var after := ReopenStep(o, m).0;
            && after.ledger == o.ledger && after.profile == o.profile
            && (forall id :: id in after.recs <==> id in o.recs && o.recs[id].close < m)
            && forall id :: id in after.recs ==> after.recs[id] == o.recs[id]
  {
    hide Moved, Kept, ReadyAt;
    forall id | id in o.recs ensures Settled(o.months, o.recs[id].close) { SettledRec(o, id); }
  }

  lemma SettledRec(o: Office, id: int)
    requires RecsOk(o) && id in o.recs
    ensures Settled(o.months, o.recs[id].close)
  {
  }

  /** A finalized close and only a finalized close can be locked; it is then LOCKED, with the same totals and
      settlement, at every later point of any run. */
  lemma LockedForever(o: Office, qs: seq<Request>, i: nat, n: nat)
    requires Blank(o) && i < n <= |qs| && (forall j :: 0 <= j < |qs| ==> GoodRequest(qs[j])) && qs[i].Lock?
    ensures var before, now, m := Served(o, qs, i).months, Served(o, qs, n).months, qs[i].month;
            && (Serve(Served(o, qs, i), qs[i]).1 <==> m in before && before[m].status.Finalized?)
            && (Serve(Served(o, qs, i), qs[i]).1 ==>
                  m in now && now[m].status.Locked? && now[m].totals == before[m].totals && now[m].snapshot == before[m].snapshot)
  {
    var here := Served(o, qs, i);
    var m := qs[i].month;
    assert Served(o, qs, i + 1) == Serve(here, qs[i]).0;
    LockServed(here, m);
    hide Served, Serve, Moved, GoodRequest, Blank;
    if Serve(here, qs[i]).1 { SealedForever(o, qs, i + 1, n, m, m); }
  }

  lemma LockServed(o: Office, m: int)
    ensures Serve(o, Lock(m)).1 <==> m in o.months && o.months[m].status.Finalized?
    ensures Serve(o, Lock(m)).1 ==>
              var after := Serve(o, Lock(m)).0.months;
              m in after && after[m].status.Locked? && after[m].totals == o.months[m].totals && after[m].snapshot == o.months[m].snapshot
  {
  }

  // ---- Starting settlement ------------------------------------------------------------------------------------

  /** Activation captures a baseline once: with one, only its own start is accepted and nothing is captured again;
      without, the balances must be clear and there must be some. */
  lemma ActivateIff(o: Office, start: int, clear: bool, captured: seq<FrozenAccount>)
    requires ProfileOk(o.profile)
    ensures var (after, done) := Serve(o, Activate(start, clear, captured));
            && (done <==> if o.profile.activation.Some? then o.profile.activation.value == start - 1 else clear && captured != [])
            && (done ==> after.profile == Profile(true, Some(start - 1), if o.profile.activation.Some? then o.profile.baseline else captured, o.profile.adjustments))
            && (!done ==> after == o) && after == o.(profile := after.profile)
  {
  }

  /** A new baseline replaces the old one, with its adjustments, exactly while no settlement is READY. */
  lemma RebaselineIff(o: Office, start: int, clear: bool, captured: seq<FrozenAccount>, adjustments: seq<FrozenAccount>)
    ensures var (after, done) := Serve(o, Rebaseline(start, clear, captured, adjustments));
            && (done <==> (forall m :: m in o.months ==> !ReadyAt(o.months, m)) && clear && captured != [])
            && (done ==> after.profile == Profile(true, Some(start - 1), captured, adjustments))
            && (!done ==> after == o) && after == o.(profile := after.profile)
  {
  }

  /** Adjustments can be configured only before a baseline is captured, accounts added only after; disabling keeps
      everything else. */
  lemma ProfileEdits(o: Office, adjustments: seq<FrozenAccount>, account: FrozenAccount)
    requires ProfileOk(o.profile)
    ensures Serve(o, Configure(adjustments))
            == if o.profile.baseline == [] then (o.(profile := o.profile.(adjustments := adjustments)), true) else (o, false)
    ensures Serve(o, AddAccount(account))
            == if o.profile.baseline != [] then (o.(profile := o.profile.(baseline := o.profile.baseline + [account])), true) else (o, false)
    ensures Serve(o, Disable) == (o.(profile := o.profile.(enabled := false)), true)
  {
  }

  // ---- READY periods tile the calendar -----------------------------------------------------------------------

  /** Every READY close starts the day after the latest READY one before it, or after activation. */
  ghost predicate Tiled(o: Office) {
    forall m :: m in o.months && ReadyAt(o.months, m) ==>
      o.profile.activation.Some? && o.months[m].snapshot.value.start == OpeningStart(o, m)
  }

  predicate InPeriod(months: map<int, Month>, m: int, d: int) {
    ReadyAt(months, m) && months[m].snapshot.value.start <= d <= months[m].snapshot.value.end
  }

  /** No date lies in the periods of two READY closes. */
  ghost predicate DatesOnce(o: Office) {
    forall p, q, d :: InPeriod(o.months, p, d) && InPeriod(o.months, q, d) ==> p == q
  }

  /** No READY close comes after the month, or its settlement opens only after the month ends. */
  ghost predicate LastOrEmpty(o: Office, m: int) {
    (forall k :: k in o.months && ReadyAt(o.months, k) ==> k < m) || OpeningStart(o, m) > MonthEnd(m)
  }

  /** What keeps dates apart: a finalize that makes its settlement READY is the last one or empty. */
  ghost predicate KeepsDates(o: Office, q: Request) {
    q.Finalize? && FinalizeStep(o, q.month, q.report).1 && ReadyAt(Serve(o, q).0.months, q.month) ==> LastOrEmpty(o, q.month)
  }

  lemma PreviousSame(before: map<int, Month>, after: map<int, Month>, m: int)
    requires forall p :: p < m ==> (ReadyAt(before, p) <==> ReadyAt(after, p))
    ensures Previous(before, m) == Previous(after, m)
  {
    hide Greatest;
    assert ReadyBefore(before, m) == ReadyBefore(after, m);
  }

  /** While a READY settlement exists, no request changes the activation date. */
  lemma ActivationHeld(o: Office, q: Request)
    requires OfficeInv(o) && AnyReady(o.months)
    ensures Serve(o, q).0.profile.activation == o.profile.activation
  {
    hide MonthsOk, RecsOk, Execution.Inv, Execution.Step, SnapshotOf, TotalsOf, Moved, Kept, AnyReady;
  }

  /** Between any two points of any run, in or out of month order, the activation date is the same as long as
      some READY settlement exists all along. */
  lemma {:induction false} ActivationFixed(o: Office, qs: seq<Request>, i: nat, n: nat)
    requires Blank(o) && i <= n <= |qs| && forall j :: 0 <= j < |qs| ==> GoodRequest(qs[j])
    requires forall j :: i <= j < n ==> AnyReady(Served(o, qs, j).months)
    ensures Served(o, qs, n).profile.activation == Served(o, qs, i).profile.activation
  {
    hide Serve;
    if i < n {
      ActivationFixed(o, qs, i, n - 1);
      ServedKeeps(o, qs, n - 1);
      hide OfficeInv, GoodRequest, Blank, AnyReady;
      ActivationHeld(Served(o, qs, n - 1), qs[n - 1]);
    }
  }

  /** READY closes a request leaves READY, unchanged, with the READY closes before them, stay tiled. */
  lemma TiledWithin(o: Office, after: Office)
    requires Tiled(o) && ((exists m :: m in o.months && ReadyAt(o.months, m)) ==> after.profile.activation == o.profile.activation)
    requires forall m :: m in after.months && ReadyAt(after.months, m) ==>
               ReadyAt(o.months, m) && after.months[m].snapshot == o.months[m].snapshot
               && forall p :: p < m && ReadyAt(o.months, p) ==> ReadyAt(after.months, p)
    ensures Tiled(after)
  {
    hide Previous;
    forall m | m in after.months && ReadyAt(after.months, m)
      ensures after.profile.activation.Some? && after.months[m].snapshot.value.start == OpeningStart(after, m)
    {
      assert ReadyAt(o.months, m);
      PreviousSame(o.months, after.months, m);
      PreviousIsReady(o.months, m);
    }
  }

  lemma PreviousIsReady(months: map<int, Month>, m: int)
    ensures var p := Previous(months, m); p.Some? ==> p.value < m && ReadyAt(months, p.value)
    ensures forall q :: q < m && ReadyAt(months, q) ==> Previous(months, m).Some? && q <= Previous(months, m).value
  {
    GreatestExists(ReadyBefore(months, m));
    forall q | q < m && ReadyAt(months, q) ensures q in ReadyBefore(months, m) { assert q in months; }
  }

  /** What a READY finalize of m does to the closes: m opens where it should, by the day after it ends, and
      everything else stays. */
  ghost predicate Added(o: Office, after: Office, m: int) {
    && after.profile == o.profile && o.profile.activation.Some? && !ReadyAt(o.months, m) && ReadyAt(after.months, m)
    && (forall k :: k != m ==> (k in o.months <==> k in after.months) && (k in o.months ==> o.months[k] == after.months[k]))
    && after.months[m].snapshot.value.start == OpeningStart(o, m) && after.months[m].snapshot.value.end == MonthEnd(m)
    && OpeningStart(o, m) <= MonthEnd(m) + 1
  }

  lemma FinalizeAdds(o: Office, m: int, r: Report)
    requires OfficeInv(o) && m in o.months && o.months[m].status.Draft?
    requires ReadyAt(FinalizeStep(o, m, r).0.months, m)
    ensures Added(o, FinalizeStep(o, m, r).0, m) && MonthsOk(FinalizeStep(o, m, r).0.months)
  {
    FinalizeMonths(o, m, r);
    OpensInTime(o, m);
    hide Execution.Inv, MonthsOk, RecsOk, TotalsOf, NewRecs, NewOrder, MonthEnd, MonthStart, Previous, Opening;
  }

  /** A READY close above m is preceded by m now, unless another one lies between. */
  lemma PreviousAdded(o: Office, after: Office, m: int, k: int)
    requires Added(o, after, m)
    ensures k <= m ==> Previous(after.months, k) == Previous(o.months, k)
    ensures k > m ==>
              var p := Previous(o.months, k);
              if p.Some? && p.value > m then Previous(after.months, k) == p
              else Previous(after.months, k) == Some(m) && Previous(o.months, m) == p
  {
    hide OpeningStart, MonthEnd;
    PreviousIsReady(o.months, k);
    PreviousIsReady(after.months, k);
    PreviousIsReady(o.months, m);
    hide Previous;
    assert forall j :: j != m ==> (ReadyAt(o.months, j) <==> ReadyAt(after.months, j));
  }

  lemma TiledAdded(o: Office, after: Office, m: int, k: int)
    requires Added(o, after, m) && Tiled(o) && LastOrEmpty(o, m) && ReadyAt(after.months, k)
    ensures after.months[k].snapshot.value.start == OpeningStart(after, k)
  {
    PreviousAdded(o, after, m, k);
    PreviousIsReady(o.months, k);
    hide Previous, MonthEnd;
    assert k != m ==> ReadyAt(o.months, k);
  }

  /** The first READY close above m starts on the same day as m. */
  lemma {:induction false} FirstAbove(o: Office, after: Office, m: int, k: int) returns (j: int)
    requires Added(o, after, m) && Tiled(o) && m < k && ReadyAt(o.months, k)
    ensures m < j && ReadyAt(after.months, j) && after.months[j].snapshot.value.start == OpeningStart(o, m)
    decreases k - m
  {
    PreviousAdded(o, after, m, k);
    PreviousIsReady(o.months, k);
    hide Previous, MonthEnd;
    var p := Previous(o.months, k);
    if p.Some? && p.value > m { j := FirstAbove(o, after, m, p.value); } else { j := k; }
  }

  lemma TiledIsOnce(o: Office)
    requires Tiled(o) && MonthsOk(o.months)
    ensures DatesOnce(o)
  {
    forall p, q, d | InPeriod(o.months, p, d) && InPeriod(o.months, q, d) ensures p == q {
      if p < q { PeriodsApart(o, p, q); }
      if q < p { PeriodsApart(o, q, p); }
      hide Tiled, MonthsOk;
    }
  }

  /** A finalize whose settlement is READY leaves every date in at most one READY period if and only if no
      later close is READY or its own period is empty; the chain of openings survives exactly then. */
  lemma FinalizeTiles(o: Office, m: int, r: Report)
    requires OfficeInv(o) && Tiled(o) && m in o.months && o.months[m].status.Draft?
    requires ReadyAt(FinalizeStep(o, m, r).0.months, m)
    ensures var after := FinalizeStep(o, m, r).0;
            var last := forall k :: k in o.months && ReadyAt(o.months, k) ==> k < m;
            && (DatesOnce(after) <==> last || OpeningStart(o, m) > MonthEnd(m))
            && (Tiled(after) <==> last || OpeningStart(o, m) > MonthEnd(m))
  {
    var after := FinalizeStep(o, m, r).0;
    FinalizeAdds(o, m, r);
    hide FinalizeStep, OfficeInv, OpeningStart, MonthEnd, MonthsOk;
    if LastOrEmpty(o, m) {
      forall k | k in after.months && ReadyAt(after.months, k)
        ensures after.months[k].snapshot.value.start == OpeningStart(after, k)
      {
        TiledAdded(o, after, m, k);
      }
      TiledIsOnce(after);
    } else {
      var k :| k in o.months && ReadyAt(o.months, k) && k >= m;
      var j := FirstAbove(o, after, m, k);
      EndsInOrder(after.months, m, j);
      assert InPeriod(after.months, m, OpeningStart(o, m)) && InPeriod(after.months, j, OpeningStart(o, m));
      if Tiled(after) { TiledIsOnce(after); }
    }
  }

  /** Finalizing right below a READY close: both periods start on the same day, so every day of the earlier
      month's period, if it has any, is counted twice. */
  lemma OutOfOrderOverlaps(o: Office, m: int, k: int, r: Report, d: int)
    requires OfficeInv(o) && Tiled(o) && m in o.months && o.months[m].status.Draft? && m < k && ReadyAt(o.months, k)
    requires forall j :: m < j < k ==> !ReadyAt(o.months, j)
    requires ReadyAt(FinalizeStep(o, m, r).0.months, m)
    ensures var after := FinalizeStep(o, m, r).0;
            && after.months[m].snapshot.value.start == after.months[k].snapshot.value.start
            && (InPeriod(after.months, m, d) ==> InPeriod(after.months, k, d))
  {
    var after := FinalizeStep(o, m, r).0;
    EndsInOrder(o.months, m, k);
    hide OfficeInv, MonthsOk, TotalsOf, NewRecs, NewOrder, MonthEnd, MonthStart, Greatest;
    SamePrevious(o.months, m, k);
    hide Previous;
  }

  /** The first READY settlement, or one below all others, opens the day after activation. */
  lemma FinalizeFirst(o: Office, m: int, r: Report)
    requires m in o.months && o.months[m].status.Draft? && r.clear && forall p :: p < m ==> !ReadyAt(o.months, p)
    requires o.profile.enabled && o.profile.activation.Some? && o.profile.activation.value <= MonthEnd(m)
    ensures var after := FinalizeStep(o, m, r).0;
            && after.profile == o.profile && ReadyAt(after.months, m) && after.months == o.months[m := after.months[m]]
            && after.months[m].snapshot.value.start == o.profile.activation.value + 1
            && after.months[m].snapshot.value.end == MonthEnd(m)
  {
    hide TotalsOf, NewRecs, NewOrder, MonthEnd, Opening, Greatest;
    GreatestExists(ReadyBefore(o.months, m));
  }

  function EmptyOffice(): Office { Office(map[], Profile(false, None, [], []), map[], [], 0, [], {}) }

  function ClearReport(): Report { Report(0, 0, 0, 0, Some(0), None, true, [], []) }

  /** Activate from a date, open m and k, finalize k and then m. */
  function BackToFront(start: int, m: int, k: int): seq<Request> {
    [Activate(start, true, [FrozenAccount(1, [Allocation.Share(1, 0)], None)]), Open(m), Open(k),
     Finalize(k, ClearReport()), Finalize(m, ClearReport())]
  }

  lemma BothOpened(start: int, m: int, k: int)
    requires m < k
    ensures var o := Served(EmptyOffice(), BackToFront(start, m, k), 3);
            && o.profile.enabled && o.profile.activation == Some(start - 1)
            && o.months == map[m := Month(Draft, None, None), k := Month(Draft, None, None)]
  {
    var o, qs := EmptyOffice(), BackToFront(start, m, k);
    assert Served(o, qs, 0) == o;
    assert Served(o, qs, 1).months == map[];
    assert Served(o, qs, 2).months == map[m := Month(Draft, None, None)];
  }

  lemma BothFinalized(start: int, m: int, k: int)
    requires m < k && start <= MonthEnd(m) + 1
    ensures var qs := BackToFront(start, m, k);
            var now := Served(EmptyOffice(), qs, |qs|);
            && Blank(EmptyOffice()) && (forall i :: 0 <= i < |qs| ==> GoodRequest(qs[i]))
            && ReadyAt(now.months, m) && now.months[m].snapshot.value.start == start && now.months[m].snapshot.value.end == MonthEnd(m)
            && ReadyAt(now.months, k) && now.months[k].snapshot.value.start == start && now.months[k].snapshot.value.end == MonthEnd(k)
            && MonthEnd(m) < MonthEnd(k)
  {
    var qs := BackToFront(start, m, k);
    BothOpened(start, m, k);
    StartBeforeEnd(k);
    MonthsAreOrdered(m, k);
    var o := Served(EmptyOffice(), qs, 3);
    hide MonthStart, MonthEnd, FinalizeStep;
    FinalizeFirst(o, k, ClearReport());
    var later := FinalizeStep(o, k, ClearReport()).0;
    assert Served(EmptyOffice(), qs, 4) == later;
    FinalizeFirst(later, m, ClearReport());
    assert Served(EmptyOffice(), qs, 5) == FinalizeStep(later, m, ClearReport()).0;
  }

  /** Both cases are reachable, for any two months, from a household without closes: finalizing the later one
      READY and then the earlier one leaves the first day of the earlier month in both periods when settlement
      started that day, and no date in both when it starts the day after the earlier month. */
  lemma OverlapReached(m: int, k: int, d: int)
    requires m < k
    ensures var qs := BackToFront(MonthStart(m), m, k);
            var now := Served(EmptyOffice(), qs, |qs|);
            && Blank(EmptyOffice()) && (forall i :: 0 <= i < |qs| ==> GoodRequest(qs[i]))
            && InPeriod(now.months, m, MonthStart(m)) && InPeriod(now.months, k, MonthStart(m))
    ensures var qs := BackToFront(MonthEnd(m) + 1, m, k);
            var now := Served(EmptyOffice(), qs, |qs|);
            ReadyAt(now.months, m) && ReadyAt(now.months, k) && !(InPeriod(now.months, m, d) && InPeriod(now.months, k, d))
  {
    StartBeforeEnd(m);
    BothFinalized(MonthStart(m), m, k);
    BothFinalized(MonthEnd(m) + 1, m, k);
    hide MonthStart, MonthEnd, Served, BackToFront, GoodRequest;
  }

  lemma EndsInOrder(months: map<int, Month>, m: int, k: int)
    requires MonthsOk(months) && ReadyAt(months, k) && m < k
    ensures MonthEnd(m) < months[k].snapshot.value.end
  {
    assert MonthOk(months, k);
    hide MonthEnd, MonthStart, LiquidityHeld, SettlementHeld, TotalsOk;
    MonthsAreOrdered(m, k);
    StartBeforeEnd(k);
  }

  lemma SamePrevious(months: map<int, Month>, m: int, k: int)
    requires m < k && forall j :: m <= j < k ==> !ReadyAt(months, j)
    ensures Previous(months, m) == Previous(months, k)
  {
    hide ReadyAt, Greatest;
    assert ReadyBefore(months, m) == ReadyBefore(months, k);
  }

  /** A step keeps the tiling and the dates apart if and only if it keeps to that rule. */
  lemma StepTiles(o: Office, q: Request)
    requires OfficeInv(o) && Tiled(o) && GoodRequest(q)
    ensures Tiled(Serve(o, q).0) <==> KeepsDates(o, q)
    ensures DatesOnce(Serve(o, q).0) <==> KeepsDates(o, q)
  {
    var after := Serve(o, q).0;
    if AnyReady(o.months) { ActivationHeld(o, q); }
    ServeKeeps(o, q);
    hide Tiled, OpeningStart, DatesOnce, MonthsOk, Execution.Inv, RecsOk;
    if q.Finalize? && FinalizeStep(o, q.month, q.report).1 && ReadyAt(after.months, q.month) {
      hide OfficeInv;
      FinalizeTiles(o, q.month, q.report);
    } else {
      ReadyOnlyLost(o, q);
      hide ReadyAt, Serve;
      TiledWithin(o, after);
      TiledIsOnce(after);
    }
  }

  /** A request that does not add a READY close only removes the latest ones. */
  lemma ReadyOnlyLost(o: Office, q: Request)
    requires q.Finalize? && FinalizeStep(o, q.month, q.report).1 ==> !ReadyAt(Serve(o, q).0.months, q.month)
    ensures var after := Serve(o, q).0;
            forall m :: m in after.months && ReadyAt(after.months, m) ==>
              ReadyAt(o.months, m) && after.months[m].snapshot == o.months[m].snapshot
              && forall p :: p < m && ReadyAt(o.months, p) ==> ReadyAt(after.months, p)
  {
    hide Previous, OpeningStart, Kept, Moved, Opening;
    match q {
      case Reopen(m) => hide RebaselineStep, ActivateStep;
      case Finalize(_, _) => hide SnapshotOf, TotalsOf, NewRecs, NewOrder;
      case Execute(_) => hide Execution.Step;
      case _ => hide RebaselineStep, ActivateStep;
    }
  }

  /** At no point of the run is a date in two READY periods. */
  ghost predicate AlwaysOnce(o: Office, qs: seq<Request>, n: nat)
    requires n <= |qs|
  {
    forall i :: 0 <= i <= n ==> DatesOnce(Served(o, qs, i))
  }

  /** Every finalize of the run that made a settlement READY came after all READY closes or was empty. */
  ghost predicate AlwaysKeeps(o: Office, qs: seq<Request>, n: nat)
    requires n <= |qs|
  {
    forall i :: 0 <= i < n ==> KeepsDates(Served(o, qs, i), qs[i])
  }

  lemma {:induction false} ServedTiles(o: Office, qs: seq<Request>, n: nat)
    requires Blank(o) && n <= |qs| && (forall i :: 0 <= i < |qs| ==> GoodRequest(qs[i])) && AlwaysKeeps(o, qs, n)
    ensures Tiled(Served(o, qs, n)) && AlwaysOnce(o, qs, n)
  {
    hide Serve, KeepsDates, DatesOnce;
    ServedKeeps(o, qs, n);
    if n > 0 {
      ServedTiles(o, qs, n - 1);
      ServedKeeps(o, qs, n - 1);
      hide OfficeInv, Tiled, GoodRequest, Blank;
      StepTiles(Served(o, qs, n - 1), qs[n - 1]);
    } else {
      hide MonthsOk, Execution.Inv;
      TiledIsOnce(o);
    }
  }

  lemma {:induction false} DatesForce(o: Office, qs: seq<Request>, n: nat)
    requires Blank(o) && n <= |qs| && (forall i :: 0 <= i < |qs| ==> GoodRequest(qs[i])) && AlwaysOnce(o, qs, n)
    ensures Tiled(Served(o, qs, n)) && AlwaysKeeps(o, qs, n)
  {
    hide Serve, KeepsDates, DatesOnce;
    if n > 0 {
      DatesForce(o, qs, n - 1);
      ServedKeeps(o, qs, n - 1);
      hide OfficeInv, Tiled, GoodRequest, Blank;
      StepTiles(Served(o, qs, n - 1), qs[n - 1]);
      assert Served(o, qs, n) == Serve(Served(o, qs, n - 1), qs[n - 1]).0;
    }
  }

  /** Over any run from a household without closes no date is ever in two READY periods if and only if every
      finalize that made a settlement READY came after all READY closes or had an empty period. */
  lemma DatesOnceIff(o: Office, qs: seq<Request>)
    requires Blank(o) && forall i :: 0 <= i < |qs| ==> GoodRequest(qs[i])
    ensures AlwaysOnce(o, qs, |qs|) <==> AlwaysKeeps(o, qs, |qs|)
  {
    hide AlwaysOnce, AlwaysKeeps, GoodRequest, Blank;
    if AlwaysOnce(o, qs, |qs|) { DatesForce(o, qs, |qs|); }
    if AlwaysKeeps(o, qs, |qs|) { ServedTiles(o, qs, |qs|); }
  }

  lemma PeriodsApart(o: Office, p: int, q: int)
    requires Tiled(o) && MonthsOk(o.months) && ReadyAt(o.months, p) && ReadyAt(o.months, q) && p < q
    ensures o.months[p].snapshot.value.end < o.months[q].snapshot.value.start
  {
    PreviousIsReady(o.months, q);
    var g := Previous(o.months, q).value;
    assert MonthOk(o.months, p) && MonthOk(o.months, g);
    hide MonthOk, MonthStart, Previous, DaysInMonth, MonthEnd;
    if p < g {
      MonthsAreOrdered(p, g);
      StartBeforeEnd(g);
    }
  }

  lemma {:induction false} DateCovered(o: Office, m: int, d: int) returns (p: int)
    requires Tiled(o) && MonthsOk(o.months) && ReadyAt(o.months, m)
    requires o.profile.activation.value < d <= o.months[m].snapshot.value.end
    ensures InPeriod(o.months, p, d) && p <= m
    decreases |ReadyBefore(o.months, m)|
  {
    p := m;
    if d < o.months[m].snapshot.value.start {
      PreviousIsReady(o.months, m);
      var g := Previous(o.months, m).value;
      assert ReadyBefore(o.months, g) < ReadyBefore(o.months, m) by {
        assert g in ReadyBefore(o.months, m) && g !in ReadyBefore(o.months, g);
      }
      Smaller(ReadyBefore(o.months, g), ReadyBefore(o.months, m));
      hide MonthOk, Previous;
      p := DateCovered(o, g, d);
    }
  }

  lemma Smaller(a: set<int>, b: set<int>)
    requires a < b
    ensures |a| < |b|
  {
    assert b == a + (b - a) && a !! (b - a);
    assert b - a != {};
  }

  /** As long as no READY settlement is finalized below another, except with an empty period, then across any
      run with reopens, locks, disables, closes that were not READY and re-baselines, the periods of the READY
      settlements tile the time from the day after activation to the end of any of them: each date lies in
      exactly one. */
  lemma PeriodsTile(o: Office, qs: seq<Request>, last: int, d: int)
    requires Blank(o) && forall i :: 0 <= i < |qs| ==> GoodRequest(qs[i])
    requires AlwaysKeeps(o, qs, |qs|) && ReadyAt(Served(o, qs, |qs|).months, last)
    ensures var now := Served(o, qs, |qs|);
            && now.profile.activation.Some?
            && (now.profile.activation.value < d <= MonthEnd(last) ==>
                  exists p :: InPeriod(now.months, p, d) && forall q :: InPeriod(now.months, q, d) ==> q == p)
  {
    var now := Served(o, qs, |qs|);
    ServedTiles(o, qs, |qs|);
    ServedKeeps(o, qs, |qs|);
    hide Served, Execution.Inv, RecsOk;
    assert MonthOk(now.months, last);
    if now.profile.activation.value < d <= MonthEnd(last) {
      hide MonthOk, MonthStart, MonthEnd, Previous;
      var p := DateCovered(now, last, d);
      forall q | InPeriod(now.months, q, d) ensures q == p {
        if q < p { PeriodsApart(now, q, p); }
        if p < q { PeriodsApart(now, p, q); }
      }
    }
  }

  // ---- Liquidity along a chain of closes ----------------------------------------------------------------------

  /** A settled close whose opening and liquidity are known. */
  predicate Known(months: map<int, Month>, m: int) {
    && m in months && months[m].totals.Some?
    && var t := months[m].totals.value;
       t.opening.Some? && t.liquidity.Some? && t.expected.Some? && t.residual.Some?
  }

  function OpeningOf(months: map<int, Month>, m: int): int { if Known(months, m) then months[m].totals.value.opening.value else 0 }

  function LiquidityOf(months: map<int, Month>, m: int): int { if Known(months, m) then months[m].totals.value.liquidity.value else 0 }

  /** The expected change of a close plus its residual. */
  function Explained(months: map<int, Month>, m: int): int {
    if Known(months, m) then
      var t := months[m].totals.value;
      t.expected.value - t.opening.value + t.residual.value
    else 0
  }

  function ExplainedSum(months: map<int, Month>, a: int, n: nat): int {
    if n == 0 then 0 else ExplainedSum(months, a, n - 1) + Explained(months, a + n - 1)
  }

  /** What a close's own figures leave over. */
  function OwnGap(months: map<int, Month>, m: int): int { LiquidityOf(months, m) - OpeningOf(months, m) - Explained(months, m) }

  function ChainGap(months: map<int, Month>, a: int, n: nat): int {
    LiquidityOf(months, a + n - 1) - OpeningOf(months, a) - ExplainedSum(months, a, n)
  }

  lemma OwnGapBound(months: map<int, Month>, m: int)
    requires MonthsOk(months) && Settled(months, m) && Known(months, m)
    ensures 2 * Abs(OwnGap(months, m)) <= CENT && (IsCents(LiquidityOf(months, m)) ==> OwnGap(months, m) == 0)
  {
    assert MonthOk(months, m);
    var t := months[m].totals.value;
    CentsGap(t.liquidity.value, t.expected.value);
    hide ToCents, IsCents, SettlementHeld;
  }

  ghost predicate ChainOf(months: map<int, Month>, a: int, n: nat) {
    && (forall m :: a <= m < a + n ==> Known(months, m) && Settled(months, m))
    && (forall m :: a < m < a + n ==> Known(months, m) && months[m].totals.value.fromClose)
  }

  predicate AllInCents(months: map<int, Month>, a: int, n: nat) {
    forall m :: a <= m < a + n ==> IsCents(LiquidityOf(months, m))
  }

  lemma {:induction false} ChainGapBound(months: map<int, Month>, a: int, n: nat)
    requires MonthsOk(months) && n > 0 && ChainOf(months, a, n)
    ensures 2 * Abs(ChainGap(months, a, n)) <= n * CENT
  {
    hide MonthsOk;
    OwnGapBound(months, a + n - 1);
    if n > 1 {
      ChainGapBound(months, a, n - 1);
      GapStep(months, a, n);
      hide ChainOf, ChainGap, OwnGap;
      GapsAdd(ChainGap(months, a, n - 1), OwnGap(months, a + n - 1), n);
    } else {
      FirstGap(months, a);
      hide ChainOf, ChainGap, OwnGap;
    }
  }

  lemma {:induction false} ChainGapExact(months: map<int, Month>, a: int, n: nat)
    requires MonthsOk(months) && n > 0 && ChainOf(months, a, n) && AllInCents(months, a, n)
    ensures ChainGap(months, a, n) == 0
  {
    hide MonthsOk;
    OwnGapBound(months, a + n - 1);
    if n > 1 {
      ChainGapExact(months, a, n - 1);
      GapStep(months, a, n);
    } else {
      FirstGap(months, a);
    }
    hide ChainOf, ChainGap, OwnGap, IsCents;
  }

  /** Along consecutive closes that each opened from the one before, the last liquidity is the first opening
      plus every close's expected change and residual, to within half a cent per close; exactly, when the
      liquidity totals are in cents. */
  lemma LiquidityTelescopes(months: map<int, Month>, a: int, n: nat)
    requires MonthsOk(months) && n > 0 && ChainOf(months, a, n)
    ensures 2 * Abs(LiquidityOf(months, a + n - 1) - OpeningOf(months, a) - ExplainedSum(months, a, n)) <= n * CENT
    ensures AllInCents(months, a, n) ==>
              LiquidityOf(months, a + n - 1) == OpeningOf(months, a) + ExplainedSum(months, a, n)
  {
    hide MonthsOk;
    ChainGapBound(months, a, n);
    if AllInCents(months, a, n) { ChainGapExact(months, a, n); }
    hide ChainOf, AllInCents, ExplainedSum, LiquidityOf, OpeningOf;
  }

  lemma FirstGap(months: map<int, Month>, a: int)
    ensures ChainGap(months, a, 1) == OwnGap(months, a)
  {
    hide Explained, LiquidityOf, OpeningOf;
    assert ExplainedSum(months, a, 0) == 0;
  }

  lemma GapStep(months: map<int, Month>, a: int, n: nat)
    requires MonthsOk(months) && n > 1 && ChainOf(months, a, n)
    ensures ChainGap(months, a, n) == ChainGap(months, a, n - 1) + OwnGap(months, a + n - 1)
  {
    var last := a + n - 1;
    assert Known(months, last - 1) && Known(months, last);
    OpensFromBefore(months, last);
    hide MonthsOk, ChainOf, Explained, LiquidityOf, OpeningOf;
    assert ExplainedSum(months, a, n) == ExplainedSum(months, a, n - 1) + Explained(months, last);
  }

  lemma OpensFromBefore(months: map<int, Month>, m: int)
    requires MonthsOk(months) && Known(months, m) && Known(months, m - 1) && months[m].totals.value.fromClose
    ensures OpeningOf(months, m) == LiquidityOf(months, m - 1)
  {
    assert MonthOk(months, m);
    hide SettlementHeld, TotalsOk;
  }

  lemma GapsAdd(g: int, h: int, n: nat)
    requires 2 * Abs(g) <= (n - 1) * CENT && 2 * Abs(h) <= CENT
    ensures 2 * Abs(g + h) <= n * CENT
  {
  }

  lemma CentsGap(liquidity: int, expected: int)
    requires IsCents(expected)
    ensures 2 * Abs(liquidity - expected - ToCents(liquidity - expected)) <= CENT
    ensures IsCents(liquidity) ==> ToCents(liquidity - expected) == liquidity - expected
  {
    hide ToCents;
  }
}
