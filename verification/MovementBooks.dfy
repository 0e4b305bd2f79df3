/** The dictionaries `_compute_movements` updates in place, transaction by transaction. */
module MovementBooks {
  import opened Money
  import opened Wrappers
  import opened FiniteSums
  import opened Allocation
  import opened Positions
  import opened Movements

  class RunningBooks {
    var members: Position
    var totals: map<int, int>
    var income: map<int, int>
    var expense: map<int, int>
    var physical: map<int, int>
    var normalized: map<int, int>
    var compensations: seq<Compensation>
    var blockers: seq<Blocker>

    function State(): Books
      reads this
    {
      Books(members, totals, income, expense, physical, normalized, compensations, blockers)
    }

    constructor (members: Position, totals: map<int, int>)
      ensures State() == Books(members, totals, map[], map[], map[], map[], [], [])
    {
      this.members, this.totals := members, totals;
      income, expense, physical, normalized, compensations, blockers := map[], map[], map[], map[], [], [];
    }

    method ComputeMovements(c: Config, txs: seq<Tx>)
      modifies this
      ensures State() == Fold(c, old(State()), txs, |txs|)
    {
      for i := 0 to |txs|
        invariant State() == Fold(c, old(State()), txs, i)
      {
        hide Step;
        PostTransaction(c, txs[i]);
      }
    }

    method PostTransaction(c: Config, tx: Tx)
      modifies this
      ensures State() == Step(c, old(State()), tx)
    {
      hide SplitAfter, MembersAfter, PhysicalAfter, PhysicalBlockers, ParticipantTotal, FlowTotal, EconomicBlockers,
           NormalizedAfter, NormalizedBlockers, Credit, CompensationRows, SweepRows, ToCents, MembersOf, Allocated, Vector;
      if tx.id in c.normalizations {
        NormalizeWallet(c, tx);
        return;
      }
      var split, participantTotal := MoveEntries(c, tx);
      if tx.kind != OtherKind {
        if ToCents(participantTotal) != 0 {
          blockers := AppendUnique(blockers, OutsidePerimeter(tx.id));
        } else if tx.id in c.sweeps {
          compensations := AppendRows(compensations, tx.id, SweepRows(split));
        }
        return;
      }
      var economicDelta, incomeDelta, expenseDelta := ClassifyEntries(c, tx);
      if ToCents(economicDelta) == 0 { return; }
      if tx.ownership.None? {
        blockers := AppendUnique(blockers, MissingOwnership(tx.id));
        return;
      }
      var vector := Vector(c, tx.ownership.value, tx.date);
      if vector.None? {
        blockers := AppendUnique(blockers, AllocationBlocked(tx.ownership.value));
        return;
      }
      var economicShares := Allocate(economicDelta, vector.value, CENT);
      var incomeShares := Allocate(incomeDelta, vector.value, CENT);
      var expenseShares := Allocate(expenseDelta, vector.value, CENT);
      CreditMembers(tx.id, split, economicShares, incomeShares, expenseShares);
    }

    method NormalizeWallet(c: Config, tx: Tx)
      modifies this`normalized, this`blockers
      ensures normalized == NormalizedAfter(c, tx, old(normalized), |tx.entries|)
      ensures blockers == NormalizedBlockers(c, tx, old(blockers), |tx.entries|)
    {
      hide Converted;
      for i := 0 to |tx.entries|
        invariant normalized == NormalizedAfter(c, tx, old(normalized), i)
        invariant blockers == NormalizedBlockers(c, tx, old(blockers), i)
      {
        var e := tx.entries[i];
        if e.account in c.participants {
          var converted := Converted(c, tx, e);
          if converted.Some? {
            normalized := Plus(normalized, c.participants[e.account], converted.value);
          } else {
            blockers := AppendUnique(blockers, MissingFxRate(tx.id));
          }
        }
      }
    }

    method MoveEntries(c: Config, tx: Tx) returns (split: map<int, int>, participantTotal: int)
      modifies this`members, this`physical, this`blockers
      ensures members == MembersAfter(c, tx, old(members), |tx.entries|)
      ensures physical == PhysicalAfter(c, tx, old(physical), |tx.entries|)
      ensures blockers == PhysicalBlockers(c, tx, old(blockers), |tx.entries|)
      ensures split == SplitAfter(c, tx, |tx.entries|)
      ensures participantTotal == ParticipantTotal(c, tx, |tx.entries|)
    {
      split, participantTotal := map[], 0;
      for i := 0 to |tx.entries|
        invariant members == MembersAfter(c, tx, old(members), i)
        invariant physical == PhysicalAfter(c, tx, old(physical), i)
        invariant blockers == PhysicalBlockers(c, tx, old(blockers), i)
        invariant split == SplitAfter(c, tx, i)
        invariant participantTotal == ParticipantTotal(c, tx, i)
      {
        hide LegOf, AddShares, AddMembers, AppendUnique;
        var leg := LegOf(c, tx, tx.entries[i]);
        if Held(leg) {
          physical := Plus(physical, leg.account, leg.amount);
          participantTotal := participantTotal + leg.amount;
        }
        match leg {
          case NoRate => blockers := AppendUnique(blockers, MissingFxRate(tx.id));
          case Blocked(_, _, ownership) => blockers := AppendUnique(blockers, AllocationBlocked(ownership));
          case Split(account, _, shares) => split := SplitAmongMembers(account, shares, split);
          case Foreign | Unowned(_, _) =>
        }
      }
    }

    method SplitAmongMembers(account: int, shares: seq<Share>, split: map<int, int>) returns (after: map<int, int>)
      modifies this`members
      ensures members == AddShares(old(members), account, shares, |shares|)
      ensures after == AddMembers(split, shares, |shares|)
    {
      after := split;
      for j := 0 to |shares|
        invariant members == AddShares(old(members), account, shares, j)
        invariant after == AddMembers(split, shares, j)
      {
        members := Plus(members, (account, shares[j].member), shares[j].amount);
        after := Plus(after, shares[j].member, shares[j].amount);
      }
    }

    method ClassifyEntries(c: Config, tx: Tx) returns (economicDelta: int, incomeDelta: int, expenseDelta: int)
      modifies this`blockers
      ensures blockers == EconomicBlockers(c, tx, old(blockers), |tx.entries|)
      ensures economicDelta == EconomicDelta(c, tx)
      ensures incomeDelta == IncomeDelta(c, tx) && expenseDelta == ExpenseDelta(c, tx)
    {
      hide EconomicAmount;
      economicDelta, incomeDelta, expenseDelta := 0, 0, 0;
      for i := 0 to |tx.entries|
        invariant blockers == EconomicBlockers(c, tx, old(blockers), i)
        invariant incomeDelta == FlowTotal(c, tx, Income, i) && expenseDelta == -FlowTotal(c, tx, Expense, i)
        invariant economicDelta == incomeDelta - expenseDelta
      {
        var e := tx.entries[i];
        if e.flow != Unclassified {
          var converted := EconomicAmount(c, tx, e);
          if converted.None? {
            blockers := AppendUnique(blockers, MissingFxRate(tx.id));
          } else {
            economicDelta := economicDelta + converted.value;
            if e.flow == Income {
              incomeDelta := incomeDelta + converted.value;
            } else {
              expenseDelta := expenseDelta - converted.value;
            }
          }
        }
      }
    }

    method CreditMembers(tx: int, split: map<int, int>, economic: seq<Share>, incomeShares: seq<Share>, expenseShares: seq<Share>)
      modifies this`totals, this`income, this`expense, this`compensations
      ensures var all := MembersOf(economic) + split.Keys;
              && totals == Credit(old(totals), all, economic)
              && income == Credit(old(income), all, incomeShares)
              && expense == Credit(old(expense), all, expenseShares)
              && compensations == AppendRows(old(compensations), tx, CompensationRows(all, economic, split))
    {
      hide Credit, CompensationRows, Get, ShareOf, ToCents, MembersOf;
      var all := MembersOf(economic) + split.Keys;
      var rows: map<int, int> := map[];
      var done: set<int> := {};
      NothingDone(totals, economic, split);
      NothingDone(income, incomeShares, split);
      NothingDone(expense, expenseShares, split);
      while done != all
        invariant done <= all
        invariant totals == Credit(old(totals), done, economic)
        invariant income == Credit(old(income), done, incomeShares)
        invariant expense == Credit(old(expense), done, expenseShares)
        invariant rows == CompensationRows(done, economic, split) && compensations == old(compensations)
        decreases all - done
      {
        assert all - done != {} by { assert done + (all - done) == all; }
        assert (forall m :: m !in all - done) ==> all - done == {};
        var m :| m in all - done;
        CreditOne(old(totals), done, m, economic);
        CreditOne(old(income), done, m, incomeShares);
        CreditOne(old(expense), done, m, expenseShares);
        CompensateOne(done, m, economic, split);
        totals := Plus(totals, m, ShareOf(economic, m));
        income := Plus(income, m, ShareOf(incomeShares, m));
        expense := Plus(expense, m, ShareOf(expenseShares, m));
        var difference := ToCents(ShareOf(economic, m) - Get(split, m));
        if difference != 0 { rows := rows[m := difference]; }
        done := done + {m};
      }
      compensations := AppendRows(compensations, tx, rows);
    }
  }

  lemma NothingDone(t: map<int, int>, s: seq<Share>, split: map<int, int>)
    ensures Credit(t, {}, s) == t
    ensures CompensationRows({}, s, split) == map[]
  {
  }

  lemma CreditOne(t: map<int, int>, done: set<int>, m: int, s: seq<Share>)
    requires m !in done
    ensures Credit(t, done + {m}, s) == Plus(Credit(t, done, s), m, ShareOf(s, m))
  {
  }

  lemma CompensateOne(done: set<int>, m: int, s: seq<Share>, split: map<int, int>)
    requires m !in done
    ensures var difference := ToCents(ShareOf(s, m) - Get(split, m));
            CompensationRows(done + {m}, s, split)
            == if difference != 0 then CompensationRows(done, s, split)[m := difference] else CompensationRows(done, s, split)
  {
    hide ToCents, ShareOf;
  }
}
