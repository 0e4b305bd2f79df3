/** Finalizing, reopening and locking monthly closes (`services_monthly_close.py`), freezing their
    settlement (`services_settlement_preview.py`), the settlement profile they read
    (`services_settlement.py`), and the execution desk that works on what they froze. */
module MonthlyClose {
  import opened Money
  import opened Wrappers
  import opened FiniteSums
  import opened Positions
  import opened Calendar
  import opened Execution
  import ApplyAllRuns

  // ---- State ----------------------------------------------------------------------------------------------

  /** The totals a finalized close freezes.  `fromClose` records where the opening liquidity was read: the
      close of the month before, or the liquidity summary. */
  datatype Totals = Totals(income: int, expense: int, opening: Option<int>, fromClose: bool, liquidity: Option<int>,
                           expected: Option<int>, residual: Option<int>)

  /** A frozen settlement.  `previous` is the close whose snapshot it opened from (none: the baseline). */
  datatype Snapshot = Snapshot(ready: bool, start: int, end: int, previous: Option<int>, opening: Position, accounts: seq<FrozenAccount>)

  datatype Month = Month(status: CloseStatus, totals: Option<Totals>, snapshot: Option<Snapshot>)

  /** The settlement profile; `baseline` are the captured opening balances. */
  datatype Profile = Profile(enabled: bool, activation: Option<int>, baseline: seq<FrozenAccount>, adjustments: seq<FrozenAccount>)

  /** The closes of a household by month, and the recommendations and ledger its executions work on. */
  datatype Office = Office(months: map<int, Month>, profile: Profile, recs: map<int, Rec>, order: seq<int>, next: int,
                           ledger: seq<Tx>, usable: set<int>)

  /** A recommended transfer of a settlement preview. */
  datatype Row = Row(from: int, to: int, ownership: Option<int>, amount: int)

  /** What finalizing computes from the rest of the program: executed income and expense, expense outside
      the perimeter, explicit liquidity adjustments, the liquidity of this month and, from its summary, of
      the month before; whether the settlement had no other blocker, its account rows and its transfers. */
  datatype Report = Report(income: int, expense: int, external: int, adjustments: int, liquidity: Option<int>, summary: Option<int>,
                           clear: bool, accounts: seq<FrozenAccount>, rows: seq<Row>)

  datatype Request =
    | Open(month: int)
    | Finalize(month: int, report: Report)
    | Reopen(month: int)
    | Lock(month: int)
    | Execute(op: Op)
    | Record(date: int, transfer: bool, posted: bool, ownership: Option<int>, entries: seq<Entry>)
    | Activate(start: int, clear: bool, captured: seq<FrozenAccount>)
    | Rebaseline(start: int, clear: bool, captured: seq<FrozenAccount>, adjustments: seq<FrozenAccount>)
    | Configure(adjustments: seq<FrozenAccount>)
    | AddAccount(account: FrozenAccount)
    | Disable

  // ---- Helpers ----------------------------------------------------------------------------------------------

  predicate Settled(months: map<int, Month>, m: int) { m in months && !months[m].status.Draft? }

  /** A finalized or locked close with a READY snapshot. */
  predicate ReadyAt(months: map<int, Month>, m: int) {
    Settled(months, m) && months[m].snapshot.Some? && months[m].snapshot.value.ready
  }

  /** The greatest element. */
  function Greatest(s: set<int>): (g: Option<int>)
    ensures g.Some? ==> g.value in s && forall p :: p in s ==> p <= g.value
  {
    if exists p :: p in s && IsGreatest(s, p) then
      var p :| p in s && IsGreatest(s, p);
      Some(p)
    else None
  }

  predicate IsGreatest(s: set<int>, p: int) { forall q :: q in s ==> q <= p }

  lemma {:induction false} GreatestExists(s: set<int>)
    ensures Greatest(s).None? <==> s == {}
    decreases |s|
  {
    if s != {} {
      assert (forall p :: p !in s) ==> s == {};
      var p :| p in s;
      GreatestExists(s - {p});
      var rest := Greatest(s - {p});
      assert s == s - {p} + {p};
      var g := if rest.Some? && rest.value > p then rest.value else p;
      assert g in s && IsGreatest(s, g);
    }
  }

  function ReadyBefore(months: map<int, Month>, m: int): set<int> {
    set p | p in months && ReadyAt(months, p) && p < m
  }

  /** The snapshot a close opens from: the READY one with the latest end before the month starts.  A
      snapshot ends with its month, so it is the latest month before. */
  function Previous(months: map<int, Month>, m: int): Option<int> { Greatest(ReadyBefore(months, m)) }

  /** The period start, and the position, `_opening_position` returns. */
  function OpeningStart(o: Office, m: int): int {
    var p := Previous(o.months, m);
    if p.Some? then o.months[p.value].snapshot.value.end + 1
    else if o.profile.activation.None? then MonthStart(m)
    else o.profile.activation.value + 1
  }

  function OpenedBy(rows: seq<FrozenAccount>): Position { OpenedMembers(rows, |rows|) }

  function Opening(o: Office, m: int): Position {
    var p := Previous(o.months, m);
    if p.Some? then OpenedBy(o.months[p.value].snapshot.value.accounts)
    else if o.profile.activation.None? then map[]
    else OpenedBy(o.profile.baseline + o.profile.adjustments)
  }

  /** `_get_previous_month_liquidity_total`: the figure and whether the previous close supplied it. */
  function PreviousLiquidity(months: map<int, Month>, m: int, summary: Option<int>): (Option<int>, bool) {
    if Settled(months, m - 1) && months[m - 1].totals.Some? && months[m - 1].totals.value.liquidity.Some?
    then (months[m - 1].totals.value.liquidity, true)
    else (summary, false)
  }

  /** The execution desk over the closes as they stand: a transfer can be reconciled from a week before the
      period end to the end of the month after. */
  function DeskOf(o: Office): Desk {
    Desk(o.recs, o.order, o.ledger, map m | m in o.months :: CloseOf(o.months[m], m), o.usable)
  }

  function CloseOf(month: Month, m: int): Close {
    Close(month.status, month.snapshot.Some? && month.snapshot.value.ready, month.snapshot.Some?, MonthEnd(m) - 7, MonthEnd(m + 1))
  }

  // ---- Finalize ---------------------------------------------------------------------------------------------

  function TotalsOf(o: Office, m: int, r: Report): Totals {
    var (opening, fromClose) := PreviousLiquidity(o.months, m, r.summary);
    var expected := if opening.Some? then Some(ToCents(opening.value + r.income - r.external + r.adjustments)) else None;
    var residual := if r.liquidity.Some? && expected.Some? then Some(ToCents(r.liquidity.value - expected.value)) else None;
    Totals(r.income, r.expense, opening, fromClose, r.liquidity, expected, residual)
  }

  /** A settlement that would open after the month ends is blocked. */
  function SnapshotOf(o: Office, m: int, r: Report): Option<Snapshot> {
    if !o.profile.enabled then None else
    var p := Previous(o.months, m);
    var early := p.None? && o.profile.activation.Some? && o.profile.activation.value > MonthEnd(m);
    Some(Snapshot(r.clear && !early, OpeningStart(o, m), MonthEnd(m), p, Opening(o, m), r.accounts))
  }

  /** The recommendations of the first n rows. */
  function NewRecs(m: int, next: int, rows: seq<Row>, n: nat): (recs: map<int, Rec>)
    requires n <= |rows|
    ensures forall id :: id in recs <==> next <= id < next + n
    ensures forall id :: id in recs ==> recs[id] == NewRec(m, rows[id - next])
  {
    if n == 0 then map[] else NewRecs(m, next, rows, n - 1)[next + n - 1 := NewRec(m, rows[n - 1])]
  }

  function NewRec(m: int, row: Row): Rec { Rec(m, row.from, row.to, row.ownership, row.amount, 0, false, Recommended) }

  function NewOrder(next: int, n: nat): seq<int> { seq(n, i requires 0 <= i < n => next + i) }

  function FinalizeStep(o: Office, m: int, r: Report): (Office, bool) {
    if m !in o.months || !o.months[m].status.Draft? then (o, false) else
    var snapshot := SnapshotOf(o, m, r);
    var rows := if snapshot.Some? && snapshot.value.ready then r.rows else [];
    (o.(months := o.months[m := Month(Finalized, Some(TotalsOf(o, m, r)), snapshot)],
        recs := o.recs + NewRecs(m, o.next, rows, |rows|), order := o.order + NewOrder(o.next, |rows|), next := o.next + |rows|),
     true)
  }

  // ---- Reopen, lock -----------------------------------------------------------------------------------------

  /** The close itself and every later finalized or locked one. */
  function Cascade(months: map<int, Month>, m: int): set<int> { set k | k in months && Settled(months, k) && k >= m }

  predicate LinkedTo(recs: map<int, Rec>, tx: Tx, m: int) {
    tx.link.Some? && tx.link.value.rec in recs && recs[tx.link.value.rec].close == m
  }

  /** The settlement of a close has ledger movements. */
  predicate Moved(recs: map<int, Rec>, ledger: seq<Tx>, m: int) { exists i :: 0 <= i < |ledger| && LinkedTo(recs, ledger[i], m) }

  function Cleared(month: Month): Month { Month(Draft, None, None) }

  function ReopenStep(o: Office, m: int): (Office, bool) {
    if m !in o.months || !o.months[m].status.Finalized? then (o, false) else
    var chain := Cascade(o.months, m);
    if exists k :: k in chain && (o.months[k].status.Locked? || Moved(o.recs, o.ledger, k)) then (o, false)
    else (Withdrawn(o, chain), true)
  }

  /** The office after the closes of a chain went back to draft and their recommendations were deleted. */
  function Withdrawn(o: Office, chain: set<int>): Office {
    o.(months := map k | k in o.months :: if k in chain then Cleared(o.months[k]) else o.months[k],
       recs := map id | id in o.recs && o.recs[id].close !in chain :: o.recs[id],
       order := Kept(o.recs, o.order, chain, |o.order|))
  }

  function Kept(recs: map<int, Rec>, order: seq<int>, chain: set<int>, n: nat): seq<int>
    requires n <= |order|
  {
    if n == 0 then [] else
    var before := Kept(recs, order, chain, n - 1);
    if order[n - 1] in recs && recs[order[n - 1]].close in chain then before else before + [order[n - 1]]
  }

  function LockStep(o: Office, m: int): (Office, bool) {
    if m !in o.months || !o.months[m].status.Finalized? then (o, false)
    else (o.(months := o.months[m := o.months[m].(status := Locked)]), true)
  }

  // ---- The profile ------------------------------------------------------------------------------------------

  predicate AnyReady(months: map<int, Month>) { exists m :: m in months && ReadyAt(months, m) }

  /** `_capture_opening_baseline`; a profile without an operating account is never ready, so something is
      always captured. */
  function Capture(p: Profile, start: int, clear: bool, captured: seq<FrozenAccount>): (Profile, bool) {
    if !clear || captured == [] then (p, false)
    else (p.(enabled := true, activation := Some(start - 1), baseline := captured), true)
  }

  function ActivateStep(p: Profile, start: int, clear: bool, captured: seq<FrozenAccount>): (Profile, bool) {
    if p.activation.Some? && p.baseline != [] then
      if p.activation.value + 1 != start then (p, false) else (p.(enabled := true), true)
    else Capture(p, start, clear, captured)
  }

  function RebaselineStep(o: Office, start: int, clear: bool, captured: seq<FrozenAccount>, adjustments: seq<FrozenAccount>): (Profile, bool) {
    if AnyReady(o.months) then (o.profile, false) else
    var (p, done) := Capture(Profile(false, None, [], adjustments), start, clear, captured);
    if done then (p, true) else (o.profile, false)
  }

  function ConfigureStep(p: Profile, adjustments: seq<FrozenAccount>): (Profile, bool) {
    if p.enabled || p.baseline != [] then (p, false) else (p.(adjustments := adjustments), true)
  }

  function AddAccountStep(p: Profile, account: FrozenAccount): (Profile, bool) {
    if p.activation.None? || p.baseline == [] then (p, false) else (p.(baseline := p.baseline + [account]), true)
  }

  // ---- Requests ---------------------------------------------------------------------------------------------

  function WithProfile(o: Office, answer: (Profile, bool)): (Office, bool) { (o.(profile := answer.0), answer.1) }

  function ExecuteStep(o: Office, op: Op): (Office, bool) {
    var (desk, outcome) := Execution.Step(DeskOf(o), op);
    (o.(recs := desk.recs, ledger := desk.ledger), !outcome.Rejected?)
  }

  function Serve(o: Office, q: Request): (Office, bool) {
    match q
    case Open(m) => if m in o.months then (o, true) else (o.(months := o.months[m := Month(Draft, None, None)]), true)
    case Finalize(m, report) => FinalizeStep(o, m, report)
    case Reopen(m) => ReopenStep(o, m)
    case Lock(m) => LockStep(o, m)
    case Execute(op) => ExecuteStep(o, op)
    case Record(date, transfer, posted, ownership, entries) =>
      (o.(ledger := o.ledger + [Tx(date, transfer, posted, ownership, entries, None)]), true)
    case Activate(start, clear, captured) => WithProfile(o, ActivateStep(o.profile, start, clear, captured))
    case Rebaseline(start, clear, captured, adjustments) => WithProfile(o, RebaselineStep(o, start, clear, captured, adjustments))
    case Configure(adjustments) => WithProfile(o, ConfigureStep(o.profile, adjustments))
    case AddAccount(account) => WithProfile(o, AddAccountStep(o.profile, account))
    case Disable => (o.(profile := o.profile.(enabled := false)), true)
  }

  /** The office after the first n requests. */
  function Served(o: Office, qs: seq<Request>, n: nat): Office
    requires n <= |qs|
  {
    if n == 0 then o else Serve(Served(o, qs, n - 1), qs[n - 1]).0
  }

  // ---- The invariant ----------------------------------------------------------------------------------------

  /** The opening liquidity a close took from the month before is still what that close shows. */
  ghost predicate LiquidityHeld(months: map<int, Month>, m: int)
    requires m in months
  {
    months[m].totals.Some? && months[m].totals.value.fromClose ==>
      && Settled(months, m - 1) && months[m - 1].totals.Some?
      && months[m - 1].totals.value.liquidity.Some? && months[m].totals.value.opening == months[m - 1].totals.value.liquidity
  }

  /** The settlement a close opened from is still frozen, READY, earlier, adjacent, and opens to the same
      position. */
  ghost predicate SettlementHeld(months: map<int, Month>, m: int)
    requires m in months
  {
    months[m].snapshot.Some? && months[m].snapshot.value.previous.Some? ==>
      var s := months[m].snapshot.value;
      var p := s.previous.value;
      && p < m && ReadyAt(months, p)
      && s.start == months[p].snapshot.value.end + 1 && s.opening == OpenedBy(months[p].snapshot.value.accounts)
  }

  /** The residual is what the expected liquidity leaves unexplained, in cents. */
  ghost predicate TotalsOk(t: Totals) {
    && (t.expected.Some? <==> t.opening.Some?)
    && (t.residual.Some? <==> t.liquidity.Some? && t.expected.Some?)
    && (t.expected.Some? ==> IsCents(t.expected.value))
    && (t.residual.Some? ==> t.residual.value == ToCents(t.liquidity.value - t.expected.value))
  }

  ghost predicate MonthOk(months: map<int, Month>, m: int)
    requires m in months
  {
    && (months[m].status.Draft? ==> months[m].totals.None? && months[m].snapshot.None?)
    && (!months[m].status.Draft? ==> months[m].totals.Some? && TotalsOk(months[m].totals.value))
    && (months[m].snapshot.Some? ==> months[m].snapshot.value.end == MonthEnd(m))
    && LiquidityHeld(months, m)
    && SettlementHeld(months, m)
  }

  ghost predicate ProfileOk(p: Profile) {
    (p.enabled ==> p.activation.Some?) && (p.activation.Some? <==> p.baseline != [])
  }

  /** Periods count from an activation date as soon as there is one. */
  predicate Anchored(o: Office) { AnyReady(o.months) ==> o.profile.activation.Some? }

  /** Recommendations belong to frozen READY settlements. */
  ghost predicate RecsOk(o: Office) {
    forall id :: id in o.recs ==> id < o.next && ReadyAt(o.months, o.recs[id].close)
  }

  ghost predicate MonthsOk(months: map<int, Month>) { forall m :: m in months ==> MonthOk(months, m) }

  ghost predicate OfficeInv(o: Office) {
    && MonthsOk(o.months)
    && ProfileOk(o.profile)
    && Anchored(o)
    && RecsOk(o)
    && Execution.Inv(DeskOf(o))
  }

  /** Transfers of a preview are positive, in cents and between different accounts. */
  predicate GoodRow(row: Row) { row.amount > 0 && IsCents(row.amount) && row.from != row.to }

  predicate GoodRequest(q: Request) { q.Finalize? ==> forall i :: 0 <= i < |q.report.rows| ==> GoodRow(q.report.rows[i]) }

  /** No close yet, settlement not configured; any ledger of ordinary transactions. */
  predicate Blank(o: Office) {
    && o.months == map[] && o.recs == map[] && o.order == []
    && o.profile == Profile(false, None, [], [])
    && forall i :: 0 <= i < |o.ledger| ==> o.ledger[i].link.None?
  }

  // ---- Every request keeps it -------------------------------------------------------------------------------

  lemma FinalizeMonths(o: Office, m: int, r: Report)
    requires MonthsOk(o.months) && m in o.months && o.months[m].status.Draft?
    ensures MonthsOk(FinalizeStep(o, m, r).0.months)
  {
    var months := o.months;
    var after := FinalizeStep(o, m, r).0.months;
    hide OpenedMembers, MonthEnd, MonthStart, ToCents;
    forall k | k in after ensures MonthOk(after, k) {
      if k == m {
        assert forall p :: p in months && p != m ==> after[p] == months[p];
        FinalizedMonthOk(o, m, r);
      } else {
        assert MonthOk(months, k);
      }
    }
  }

  lemma FinalizedMonthOk(o: Office, m: int, r: Report)
    requires m in o.months && o.months[m].status.Draft?
    ensures MonthOk(FinalizeStep(o, m, r).0.months, m)
  {
    hide OpenedBy, MonthEnd, MonthStart, ToCents, NewRecs, NewOrder;
    var after := FinalizeStep(o, m, r).0.months;
    var p := Previous(o.months, m);
    if p.Some? { assert p.value in ReadyBefore(o.months, m); }
    assert m - 1 in after ==> after[m - 1] == o.months[m - 1];
  }

  lemma {:induction false} NoneLinked(ledger: seq<Tx>, rec: int, n: nat)
    requires n <= |ledger| && forall i :: 0 <= i < n && ledger[i].link.Some? ==> ledger[i].link.value.rec != rec
    ensures LinkedSum(ledger, rec, n) == 0
  {
    if n > 0 { NoneLinked(ledger, rec, n - 1); }
  }

  /** New recommendations start with nothing applied and no transaction. */
  lemma RecsAdded(o: Office, m: int, rows: seq<Row>, q: Office)
    requires Execution.Inv(DeskOf(o)) && (forall id :: id in o.recs ==> id < o.next)
    requires forall i :: 0 <= i < |rows| ==> GoodRow(rows[i])
    requires q.recs == o.recs + NewRecs(m, o.next, rows, |rows|) && q.ledger == o.ledger
    ensures Execution.Inv(DeskOf(q))
  {
    assert IsCents(0);
    hide IsCents;
    forall i | 0 <= i < |o.ledger| ensures LinkOk(q.recs, o.ledger[i]) {
      assert LinkOk(o.recs, o.ledger[i]);
      hide Matching, Touches;
    }
    forall id | id in q.recs ensures RecOk(q.ledger, id, q.recs[id]) {
      if id in o.recs {
        assert RecOk(o.ledger, id, o.recs[id]);
      } else {
        forall i | 0 <= i < |o.ledger| && o.ledger[i].link.Some? ensures o.ledger[i].link.value.rec != id {
          assert LinkOk(o.recs, o.ledger[i]);
        }
        NoneLinked(o.ledger, id, |o.ledger|);
        assert GoodRow(rows[id - o.next]);
      }
    }
  }

  /** Deleting recommendations without transactions. */
  lemma RecsRemoved(o: Office, chain: set<int>)
    requires Execution.Inv(DeskOf(o)) && forall k :: k in chain ==> !Moved(o.recs, o.ledger, k)
    ensures Execution.Inv(DeskOf(Withdrawn(o, chain)))
  {
    var q := Withdrawn(o, chain);
    forall i | 0 <= i < |o.ledger| ensures LinkOk(q.recs, o.ledger[i]) {
      assert LinkOk(o.recs, o.ledger[i]);
      if o.ledger[i].link.Some? {
        var id := o.ledger[i].link.value.rec;
        assert LinkedTo(o.recs, o.ledger[i], o.recs[id].close);
      }
      hide Matching, Touches;
    }
    forall id | id in q.recs ensures RecOk(q.ledger, id, q.recs[id]) {
      assert RecOk(o.ledger, id, o.recs[id]);
    }
  }

  lemma RecsPlaced(o: Office, m: int, rows: seq<Row>, q: Office)
    requires RecsOk(o) && m in o.months && o.months[m].status.Draft? && m in q.months && (rows != [] ==> ReadyAt(q.months, m))
    requires q.months == o.months[m := q.months[m]]
    requires q.recs == o.recs + NewRecs(m, o.next, rows, |rows|) && q.next == o.next + |rows|
    ensures RecsOk(q)
  {
    forall id | id in q.recs ensures id < q.next && ReadyAt(q.months, q.recs[id].close) {
      if id in o.recs { assert ReadyAt(o.months, o.recs[id].close); }
    }
  }

  lemma FinalizeKeeps(o: Office, m: int, r: Report)
    requires OfficeInv(o) && GoodRequest(Finalize(m, r))
    ensures OfficeInv(FinalizeStep(o, m, r).0)
  {
    if m in o.months && o.months[m].status.Draft? {
      FinalizeMonths(o, m, r);
      var q := FinalizeStep(o, m, r).0;
      var snapshot := SnapshotOf(o, m, r);
      var rows := if snapshot.Some? && snapshot.value.ready then r.rows else [];
      RecsAdded(o, m, rows, q);
      hide Execution.Inv, MonthsOk, DeskOf, TotalsOf, SnapshotOf, NewOrder, GoodRow;
      RecsPlaced(o, m, rows, q);
    }
  }

  lemma ReopenMonths(o: Office, m: int)
    requires MonthsOk(o.months)
    ensures MonthsOk(Withdrawn(o, Cascade(o.months, m)).months)
  {
    hide OpenedMembers, MonthEnd;
    var after := Withdrawn(o, Cascade(o.months, m)).months;
    forall k | k in after ensures MonthOk(after, k) {
      assert MonthOk(o.months, k);
    }
  }

  lemma ReopenKeeps(o: Office, m: int)
    requires OfficeInv(o)
    ensures OfficeInv(ReopenStep(o, m).0)
  {
    var (q, done) := ReopenStep(o, m);
    if done {
      var chain := Cascade(o.months, m);
      assert q == Withdrawn(o, chain);
      ReopenMonths(o, m);
      RecsRemoved(o, chain);
      hide Execution.Inv, MonthOk;
    }
  }

  lemma SameDeskInv(o: Office, q: Office)
    requires Execution.Inv(DeskOf(o)) && q.recs == o.recs && q.ledger == o.ledger
    ensures Execution.Inv(DeskOf(q))
  {
  }

  lemma LockKeeps(o: Office, m: int)
    requires OfficeInv(o)
    ensures OfficeInv(LockStep(o, m).0)
  {
    var q := LockStep(o, m).0;
    SameDeskInv(o, q);
    hide Execution.Inv, OpenedMembers, MonthEnd;
    forall k | k in q.months ensures MonthOk(q.months, k) {
      assert MonthOk(o.months, k);
    }
  }

  lemma ExecuteKeeps(o: Office, op: Op)
    requires OfficeInv(o)
    ensures OfficeInv(ExecuteStep(o, op).0)
  {
    var q := ExecuteStep(o, op).0;
    StepKeeps(DeskOf(o), op);
    ApplyAllRuns.StepFrame(DeskOf(o), op);
    hide Execution.Step, MonthOk;
    assert DeskOf(q) == Execution.Step(DeskOf(o), op).0;
    hide Execution.Inv;
  }

  lemma RecordKeeps(o: Office, tx: Tx)
    requires Execution.Inv(DeskOf(o)) && tx.link.None?
    ensures Execution.Inv(DeskOf(o.(ledger := o.ledger + [tx])))
  {
    var ledger := o.ledger + [tx];
    forall id | id in o.recs ensures RecOk(ledger, id, o.recs[id]) {
      LinkedSumAppended(o.ledger, tx, id, |o.ledger|);
      assert RecOk(o.ledger, id, o.recs[id]);
    }
  }

  lemma ServeAnchored(o: Office, q: Request)
    requires Anchored(o) && ProfileOk(o.profile) && !q.Finalize? && !q.Reopen? && !q.Lock? && !q.Execute?
    ensures Anchored(Serve(o, q).0)
  {
    var after := Serve(o, q).0;
    assert forall m :: m in after.months && ReadyAt(after.months, m) ==> m in o.months && ReadyAt(o.months, m);
  }

  lemma ServeKeeps(o: Office, q: Request)
    requires OfficeInv(o) && GoodRequest(q)
    ensures OfficeInv(Serve(o, q).0)
  {
    match q {
      case Open(m) =>
        hide OpenedMembers, MonthEnd;
        var after := Serve(o, q).0;
        SameDeskInv(o, after);
        ServeAnchored(o, q);
        hide Execution.Inv, Anchored;
        forall k | k in after.months ensures MonthOk(after.months, k) { assert k in o.months ==> MonthOk(o.months, k); }
      case Finalize(m, report) => hide OfficeInv, FinalizeStep, GoodRequest; FinalizeKeeps(o, m, report);
      case Reopen(m) => hide OfficeInv, ReopenStep; ReopenKeeps(o, m);
      case Lock(m) => hide OfficeInv, LockStep; LockKeeps(o, m);
      case Execute(op) => hide OfficeInv, ExecuteStep; ExecuteKeeps(o, op);
      case Record(date, transfer, posted, ownership, entries) =>
        RecordKeeps(o, Tx(date, transfer, posted, ownership, entries, None));
        ServeAnchored(o, q);
        hide Execution.Inv, MonthsOk, Anchored;
      case _ =>
        SameDeskInv(o, Serve(o, q).0);
        ServeAnchored(o, q);
        hide Execution.Inv, MonthsOk, Anchored;
    }
  }

  /** In every run of requests: LOCKED, FINALIZED and DRAFT closes have the contents they should, every
      close that opened from a finalized one still finds it frozen with the same contents, recommendations
      belong to frozen READY settlements, and the execution invariant holds across finalizing and reopening. */
  lemma {:induction false} ServedKeeps(o: Office, qs: seq<Request>, n: nat)
    requires Blank(o) && n <= |qs| && forall i :: 0 <= i < |qs| ==> GoodRequest(qs[i])
    ensures OfficeInv(Served(o, qs, n))
  {
    hide Serve;
    if n > 0 {
      ServedKeeps(o, qs, n - 1);
      hide OfficeInv, GoodRequest;
      ServeKeeps(Served(o, qs, n - 1), qs[n - 1]);
    }
  }
}
