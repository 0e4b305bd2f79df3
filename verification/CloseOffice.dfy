/** The close and profile requests as the program carries them out, on records updated in place. */
module CloseOffice {
  import opened Money
  import opened Wrappers
  import opened FiniteSums
  import opened Allocation
  import opened Positions
  import opened Calendar
  import opened Execution
  import opened MonthlyClose

  /** An account to capture: its balance at the baseline and the percentages of its ownership. */
  datatype AccountOpening = AccountOpening(account: int, balance: int, vector: seq<Weight>)

  function CapturedRow(a: AccountOpening): FrozenAccount
    requires ValidVector(a.vector)
  {
    FrozenAccount(a.account, Allocated(a.balance, a.vector, 1), None)
  }

  function CapturedRows(accounts: seq<AccountOpening>): seq<FrozenAccount>
    requires forall i :: 0 <= i < |accounts| ==> ValidVector(accounts[i].vector)
  {
    seq(|accounts|, i requires 0 <= i < |accounts| => CapturedRow(accounts[i]))
  }

  lemma NextOrder(next: int, i: nat)
    ensures NewOrder(next, i + 1) == NewOrder(next, i) + [next + i]
  {
  }

  lemma NextRec(recs: map<int, Rec>, m: int, next: int, rows: seq<Row>, i: nat)
    requires i < |rows|
    ensures forall before: map<int, Rec> :: recs == before + NewRecs(m, next, rows, i) ==>
              recs[next + i := NewRec(m, rows[i])] == before + NewRecs(m, next, rows, i + 1)
  {
    hide NewRec;
  }

  class Registry {
    var months: map<int, Month>
    var enabled: bool
    var activation: Option<int>
    var baseline: seq<FrozenAccount>
    var adjustments: seq<FrozenAccount>
    var recs: map<int, Rec>
    var order: seq<int>
    var next: int
    var ledger: seq<Tx>
    var usable: set<int>

    function State(): Office
      reads this
    {
      Office(months, Profile(enabled, activation, baseline, adjustments), recs, order, next, ledger, usable)
    }

    constructor (o: Office)
      ensures State() == o
    {
      months, recs, order, next, ledger, usable := o.months, o.recs, o.order, o.next, o.ledger, o.usable;
      enabled, activation, baseline, adjustments := o.profile.enabled, o.profile.activation, o.profile.baseline, o.profile.adjustments;
    }

    method Finalize(m: int, r: Report) returns (done: bool)
      modifies this
      ensures (State(), done) == FinalizeStep(old(State()), m, r)
    {
      if m !in months || !months[m].status.Draft? { return false; }
      var (opening, fromClose) := PreviousLiquidity(months, m, r.summary);
      var expected: Option<int> := None;
      var residual: Option<int> := None;
      if opening.Some? { expected := Some(ToCents(opening.value + r.income - r.external + r.adjustments)); }
      if r.liquidity.Some? && expected.Some? { residual := Some(ToCents(r.liquidity.value - expected.value)); }
      var mc := Month(Finalized, Some(Totals(r.income, r.expense, opening, fromClose, r.liquidity, expected, residual)), None);
      var snapshot := FreezeSettlement(m, r);
      months := months[m := mc.(snapshot := snapshot)];
      return true;
    }

    /** `freeze_monthly_close_settlement`: creates the snapshot and its recommendations. */
    method FreezeSettlement(m: int, r: Report) returns (snapshot: Option<Snapshot>)
      modifies this`recs, this`order, this`next
      ensures snapshot == SnapshotOf(old(State()), m, r)
      ensures var rows := if snapshot.Some? && snapshot.value.ready then r.rows else [];
              && recs == old(recs) + NewRecs(m, old(next), rows, |rows|)
              && order == old(order) + NewOrder(old(next), |rows|)
              && next == old(next) + |rows|
    {
      snapshot := SnapshotOf(State(), m, r);
      hide SnapshotOf;
      CreateRecommendations(m, if snapshot.Some? && snapshot.value.ready then r.rows else []);
    }

    method CreateRecommendations(m: int, rows: seq<Row>)
      modifies this`recs, this`order, this`next
      ensures recs == old(recs) + NewRecs(m, old(next), rows, |rows|)
      ensures order == old(order) + NewOrder(old(next), |rows|)
      ensures next == old(next) + |rows|
    {
      for i := 0 to |rows|
        invariant next == old(next) + i
        invariant recs == old(recs) + NewRecs(m, old(next), rows, i)
        invariant order == old(order) + NewOrder(old(next), i)
      {
        hide NewRec, NewOrder;
        NextRec(recs, m, old(next), rows, i);
        NextOrder(old(next), i);
        recs := recs[next := NewRec(m, rows[i])];
        order := order + [next];
        next := next + 1;
      }
    }

    method Reopen(m: int) returns (done: bool)
      modifies this
      ensures (State(), done) == ReopenStep(old(State()), m)
    {
      if m !in months || !months[m].status.Finalized? { return false; }
      var chain := Cascade(months, m);
      hide Cascade, Moved, Kept, Settled, Cleared;
      done := MayReopen(chain);
      if done {
        ClearMonths(chain);
        DropRecommendations(chain);
      }
    }

    /** Looks at every close of the chain before any of them is touched. */
    method MayReopen(chain: set<int>) returns (may: bool)
      requires chain <= months.Keys
      ensures may <==> !exists k :: k in chain && (months[k].status.Locked? || Moved(recs, ledger, k))
    {
      hide Moved;
      var unchecked := chain;
      while unchecked != {}
        invariant unchecked <= chain
        invariant forall k :: k in chain - unchecked ==> !(months[k].status.Locked? || Moved(recs, ledger, k))
        decreases |unchecked|
      {
        assert (forall k :: k !in unchecked) ==> unchecked == {};
        var k :| k in unchecked;
        assert k in chain;
        if months[k].status.Locked? || Moved(recs, ledger, k) { return false; }
        unchecked := unchecked - {k};
      }
      assert chain - unchecked == chain;
      return true;
    }

    method ClearMonths(chain: set<int>)
      requires chain <= months.Keys
      modifies this`months
      ensures months == map k | k in old(months) :: if k in chain then Cleared(old(months)[k]) else old(months)[k]
    {
      hide Cleared;
      var left := chain;
      while left != {}
        invariant left <= chain
        invariant months == map k | k in old(months) :: if k in chain && k !in left then Cleared(old(months)[k]) else old(months)[k]
        decreases |left|
      {
        assert (forall k :: k !in left) ==> left == {};
        var k :| k in left;
        assert k in chain && k in months;
        months := months[k := Cleared(months[k])];
        left := left - {k};
      }
    }

    /** Deleting the snapshots of a chain deletes their recommendations. */
    method DropRecommendations(chain: set<int>)
      modifies this`recs, this`order
      ensures recs == map id | id in old(recs) && old(recs)[id].close !in chain :: old(recs)[id]
      ensures order == Kept(old(recs), old(order), chain, |old(order)|)
    {
      var was, listed := recs, order;
      order := [];
      for i := 0 to |listed|
        invariant order == Kept(was, listed, chain, i) && recs == was
      {
        if !(listed[i] in was && was[listed[i]].close in chain) { order := order + [listed[i]]; }
      }
      recs := map id | id in was && was[id].close !in chain :: was[id];
    }

    method Lock(m: int) returns (done: bool)
      modifies this
      ensures (State(), done) == LockStep(old(State()), m)
    {
      if m !in months || !months[m].status.Finalized? { return false; }
      months := months[m := months[m].(status := Locked)];
      return true;
    }

    /** `_capture_opening_baseline`, one account after the other. */
    method CaptureBaseline(start: int, clear: bool, accounts: seq<AccountOpening>) returns (done: bool)
      requires forall i :: 0 <= i < |accounts| ==> ValidVector(accounts[i].vector)
      modifies this`enabled, this`activation, this`baseline
      ensures (Profile(enabled, activation, baseline, adjustments), done)
              == Capture(old(Profile(enabled, activation, baseline, adjustments)), start, clear, CapturedRows(accounts))
    {
      if !clear || |accounts| == 0 { return false; }
      baseline := [];
      for i := 0 to |accounts|
        invariant baseline == CapturedRows(accounts)[..i]
        invariant enabled == old(enabled) && activation == old(activation)
      {
        hide Allocated, ValidVector;
        var row := CaptureAccountOpening(accounts[i].account, accounts[i].balance, accounts[i].vector);
        baseline := baseline + [row];
      }
      assert CapturedRows(accounts)[..|accounts|] == CapturedRows(accounts);
      enabled, activation := true, Some(start - 1);
      return true;
    }

    method Activate(start: int, clear: bool, accounts: seq<AccountOpening>) returns (done: bool)
      requires forall i :: 0 <= i < |accounts| ==> ValidVector(accounts[i].vector)
      modifies this
      ensures (State(), done)
              == WithProfile(old(State()), ActivateStep(old(State()).profile, start, clear, CapturedRows(accounts)))
    {
      hide CapturedRows;
      if activation.Some? && baseline != [] {
        if activation.value + 1 != start { return false; }
        if !enabled { enabled := true; }
        return true;
      }
      done := CaptureBaseline(start, clear, accounts);
    }

    /** One database transaction: when the new baseline cannot be captured, the old one comes back. */
    method Rebaseline(start: int, clear: bool, accounts: seq<AccountOpening>, changes: seq<FrozenAccount>) returns (done: bool)
      requires forall i :: 0 <= i < |accounts| ==> ValidVector(accounts[i].vector)
      modifies this
      ensures (State(), done)
              == WithProfile(old(State()), RebaselineStep(old(State()), start, clear, CapturedRows(accounts), changes))
    {
      hide CapturedRows;
      if AnyReady(months) { return false; }
      hide AnyReady;
      var was := State().profile;
      adjustments := changes;
      baseline := [];
      enabled, activation := false, None;
      done := CaptureBaseline(start, clear, accounts);
      if !done {
        enabled, activation, baseline, adjustments := was.enabled, was.activation, was.baseline, was.adjustments;
      }
    }
  }
}
