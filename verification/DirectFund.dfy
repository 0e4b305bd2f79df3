/** A shared operating account and the cards it is charged form one cash fund: its surplus or shortfall
    is settled member by member with the personal accounts (the direct branch of
    `compute_monthly_close_settlement`). */
module DirectFund {
  import opened Money
  import opened Wrappers
  import opened FiniteSums
  import opened Routing
  import opened TransferPlan

  /** The fund: an operating account, the cards it funds, next month's requirements, what the movements
      compensate each member, and the personal account of each member. */
  datatype Fund = Fund(account: int, cards: seq<int>, current: Position, requirements: Position,
                       compensations: map<int, int>, primary: map<int, int>, ownership: int, ownerships: map<int, int>)

  /** What the cards hold for a member (debts are negative). */
  function CardShare(f: Fund, m: int, n: nat): int
    requires n <= |f.cards|
  {
    if n == 0 then 0 else CardShare(f, m, n - 1) + Get(f.current, (f.cards[n - 1], m))
  }

  function Available(f: Fund, m: int): int {
    Get(f.current, (f.account, m)) + CardShare(f, m, |f.cards|) + Get(f.compensations, m)
  }

  function Delta(f: Fund, m: int): int { ToCents(Available(f, m) - Get(f.requirements, (f.account, m))) }

  function CardMembers(f: Fund, n: nat): set<int>
    requires n <= |f.cards|
  {
    if n == 0 then {} else CardMembers(f, n - 1) + MembersAt(f.current, f.cards[n - 1])
  }

  /** Members with a stake in the fund, in order. */
  function FundMembers(f: Fund): seq<int> {
    Sorted(MembersAt(f.current, f.account) + MembersAt(f.requirements, f.account) + CardMembers(f, |f.cards|))
  }

  function DirectRow(f: Fund, m: int): Row
    requires m in f.primary && f.primary[m] in f.ownerships
  {
    var d := Delta(f, m);
    if d > 0 then Row(f.account, f.primary[m], Some(m), f.ownerships[f.primary[m]], d, MemberResidual)
    else Row(f.primary[m], f.account, Some(m), f.ownership, -d, NextMonthReserve)
  }

  ghost predicate Hosted(f: Fund) { forall m :: m in f.primary ==> f.primary[m] in f.ownerships && f.primary[m] != f.account }

  function DirectRows(f: Fund, members: seq<int>, n: nat): seq<Row>
    requires Hosted(f) && n <= |members|
  {
    if n == 0 then [] else
    var before := DirectRows(f, members, n - 1);
    var m := members[n - 1];
    if m in f.primary && Delta(f, m) != 0 then before + [DirectRow(f, m)] else before
  }

  method RecommendDirectly(f: Fund) returns (rows: seq<Row>)
    requires Hosted(f)
    ensures rows == DirectRows(f, FundMembers(f), |FundMembers(f)|)
  {
    hide ToCents;
    rows := [];
    var members := FundMembers(f);
    for i := 0 to |members|
      invariant rows == DirectRows(f, members, i)
    {
      hide FundMembers;
      var m := members[i];
      var available := Get(f.current, (f.account, m));
      for c := 0 to |f.cards|
        invariant available == Get(f.current, (f.account, m)) + CardShare(f, m, c)
      {
        available := available + Get(f.current, (f.cards[c], m));
      }
      available := available + Get(f.compensations, m);
      var delta := ToCents(available - Get(f.requirements, (f.account, m)));
      if m in f.primary {
        if delta > 0 {
          rows := rows + [Row(f.account, f.primary[m], Some(m), f.ownerships[f.primary[m]], delta, MemberResidual)];
        } else if delta < 0 {
          rows := rows + [Row(f.primary[m], f.account, Some(m), f.ownership, -delta, NextMonthReserve)];
        }
      }
    }
  }

  /** The row of a member: what is available beyond its requirement goes to its primary account for its own owner,
      what is missing comes from there for the fund's, and nothing else. */
  ghost predicate SettlesMember(f: Fund, row: Row, m: int) {
    var available := Get(f.current, (f.account, m)) + CardShare(f, m, |f.cards|) + Get(f.compensations, m);
    var delta := ToCents(available - Get(f.requirements, (f.account, m)));
    && m in f.primary && row.member == Some(m) && row.amount > 0 && f.primary[m] in f.ownerships
    && if delta > 0 then
         row.from == f.account && row.to == f.primary[m] && row.amount == delta && row.ownership == f.ownerships[f.primary[m]] && row.reason == MemberResidual
       else
         row.to == f.account && row.from == f.primary[m] && row.amount == -delta && row.ownership == f.ownership && row.reason == NextMonthReserve
  }

  /** Each row settles one member of the fund, in their order. */
  lemma {:induction false} RowsSettleMembers(f: Fund, members: seq<int>, n: nat, r: nat)
    requires Hosted(f) && n <= |members| && r < |DirectRows(f, members, n)|
    ensures exists j :: 0 <= j < n && SettlesMember(f, DirectRows(f, members, n)[r], members[j])
  {
    var before := DirectRows(f, members, n - 1);
    if r < |before| {
      RowsSettleMembers(f, members, n - 1, r);
      assert DirectRows(f, members, n)[r] == before[r];
      var j :| 0 <= j < n - 1 && SettlesMember(f, before[r], members[j]);
      assert SettlesMember(f, DirectRows(f, members, n)[r], members[j]);
    } else {
      hide ToCents;
      assert SettlesMember(f, DirectRows(f, members, n)[r], members[n - 1]);
    }
  }

  // ---- What executing the rows leaves in the fund ----------------------------------------------------

  function DeltaTo(f: Fund, members: seq<int>, n: nat): int
    requires n <= |members|
  {
    if n == 0 then 0 else DeltaTo(f, members, n - 1) + Delta(f, members[n - 1])
  }

  /** Executing the rows takes the sum of the deltas out of the operating account. */
  lemma {:induction false} RowsDrainDeltas(f: Fund, members: seq<int>, n: nat)
    requires Hosted(f) && n <= |members| && forall i :: 0 <= i < |members| ==> members[i] in f.primary
    ensures Effect(DirectRows(f, members, n), f.account) == -DeltaTo(f, members, n)
  {
    hide Delta;
    if n > 0 {
      RowsDrainDeltas(f, members, n - 1);
      var before := DirectRows(f, members, n - 1);
      var row := DirectRow(f, members[n - 1]);
      SumAppend(before, row, InTo(f.account));
      SumAppend(before, row, OutOf(f.account));
      assert members[n - 1] in f.primary;
    }
  }

  /** Unrounded counterparts of the deltas. */
  function ExactTo(f: Fund, members: seq<int>, n: nat): int
    requires n <= |members|
  {
    if n == 0 then 0 else
    ExactTo(f, members, n - 1) + Available(f, members[n - 1]) - Get(f.requirements, (f.account, members[n - 1]))
  }

  lemma {:induction false} DeltasRound(f: Fund, members: seq<int>, n: nat)
    requires n <= |members|
    ensures 2 * Abs(DeltaTo(f, members, n) - ExactTo(f, members, n)) <= n * CENT
    ensures (forall m :: IsCents(Available(f, m) - Get(f.requirements, (f.account, m)))) ==>
              DeltaTo(f, members, n) == ExactTo(f, members, n)
  {
    if n > 0 {
      DeltasRound(f, members, n - 1);
      hide Available, RoundHalfUp;
    }
  }

  function CompensatedTo(f: Fund, members: seq<int>, n: nat): int
    requires n <= |members|
  {
    if n == 0 then 0 else CompensatedTo(f, members, n - 1) + Get(f.compensations, members[n - 1])
  }

  /** What the cards hold in all, card by card. */
  ghost function CardsTotal(f: Fund, n: nat): int
    requires n <= |f.cards|
  {
    if n == 0 then 0 else CardsTotal(f, n - 1) + AccountTotal(f.current, f.cards[n - 1])
  }

  function CardShareTo(f: Fund, members: seq<int>, n: nat, c: nat): int
    requires n <= |members| && c <= |f.cards|
  {
    if n == 0 then 0 else CardShareTo(f, members, n - 1, c) + CardShare(f, members[n - 1], c)
  }

  lemma {:induction false} ExactSplits(f: Fund, members: seq<int>, n: nat)
    requires n <= |members|
    ensures ExactTo(f, members, n)
            == SumAt(f.current, f.account, members, n) + CardShareTo(f, members, n, |f.cards|)
               + CompensatedTo(f, members, n) - SumAt(f.requirements, f.account, members, n)
  {
    if n > 0 {
      hide CardShare;
      ExactSplits(f, members, n - 1);
    }
  }

  lemma {:induction false} CardSharesSplit(f: Fund, members: seq<int>, n: nat, c: nat)
    requires n <= |members| && 0 < c <= |f.cards|
    ensures CardShareTo(f, members, n, c) == CardShareTo(f, members, n, c - 1) + SumAt(f.current, f.cards[c - 1], members, n)
  {
    if n > 0 { CardSharesSplit(f, members, n - 1, c); }
  }

  lemma {:induction false} CardSharesOfNone(f: Fund, members: seq<int>, n: nat)
    requires n <= |members|
    ensures CardShareTo(f, members, n, 0) == 0
  {
    if n > 0 { CardSharesOfNone(f, members, n - 1); }
  }

  lemma {:induction false} CardMembersHold(f: Fund, c: nat, n: nat)
    requires c < n <= |f.cards|
    ensures MembersAt(f.current, f.cards[c]) <= CardMembers(f, n)
  {
    if c < n - 1 { CardMembersHold(f, c, n - 1); }
  }

  lemma {:induction false} CardSharesTotal(f: Fund, c: nat)
    requires c <= |f.cards|
    ensures CardShareTo(f, FundMembers(f), |FundMembers(f)|, c) == CardsTotal(f, c)
  {
    var members := FundMembers(f);
    if c == 0 {
      CardSharesOfNone(f, members, |members|);
    } else {
      CardSharesTotal(f, c - 1);
      CardSharesSplit(f, members, |members|, c);
      CardMembersHold(f, c - 1, |f.cards|);
      StakesListed(f.current, f.cards[c - 1], members);
      SumAtIsTotal(f.current, f.cards[c - 1], members);
    }
  }

  lemma StakesListed(p: Position, a: int, members: seq<int>)
    requires forall m :: m in MembersAt(p, a) ==> m in members
    ensures forall k :: k in p && k.0 == a ==> k.1 in members
  {
    forall k | k in p && k.0 == a ensures k.1 in members {
      var m := k.1;
      assert m in MembersAt(p, a) && m in members;
    }
  }

  /** What the operating account must hold at the start of the next month: its requirement plus the debt
      of the cards it funds. */
  ghost function Obligation(f: Fund): int { AccountTotal(f.requirements, f.account) - CardsTotal(f, |f.cards|) }

  ghost function CompensationBalance(f: Fund): int { CompensatedTo(f, FundMembers(f), |FundMembers(f)|) }

  /** The fund's exact imbalance is what it holds, less its obligation, plus the compensations. */
  lemma ExactImbalance(f: Fund)
    ensures ExactTo(f, FundMembers(f), |FundMembers(f)|)
            == AccountTotal(f.current, f.account) - Obligation(f) + CompensationBalance(f)
  {
    var members := FundMembers(f);
    ExactSplits(f, members, |members|);
    CardSharesTotal(f, |f.cards|);
    StakesListed(f.current, f.account, members);
    StakesListed(f.requirements, f.account, members);
    SumAtIsTotal(f.current, f.account, members);
    SumAtIsTotal(f.requirements, f.account, members);
    hide FundMembers, SumAt, CardShareTo, CompensatedTo, AccountTotal, CardsTotal;
  }

  /** Everything in the fund is in whole cents. */
  ghost predicate FundInCents(f: Fund) {
    CentPosition(f.current) && CentPosition(f.requirements) && forall m :: m in f.compensations ==> IsCents(f.compensations[m])
  }

  lemma {:induction false} CardShareInCents(f: Fund, m: int, n: nat)
    requires FundInCents(f) && n <= |f.cards|
    ensures IsCents(CardShare(f, m, n))
  {
    if n > 0 { CardShareInCents(f, m, n - 1); }
  }

  lemma AvailableInCents(f: Fund, m: int)
    requires FundInCents(f)
    ensures IsCents(Available(f, m) - Get(f.requirements, (f.account, m)))
  {
    CardShareInCents(f, m, |f.cards|);
    hide CardShare;
  }

  ghost predicate FullyHosted(f: Fund) { Hosted(f) && forall i :: 0 <= i < |FundMembers(f)| ==> FundMembers(f)[i] in f.primary }

  /** Executing the direct recommendations when every fund member has a primary account: in whole cents
      the operating account ends with its obligation less the compensation balance, hence with exactly
      its obligation if and only if the compensations of the fund members are zero-sum; from sub-cent
      positions it misses that by at most half a cent for each member. */
  lemma FundMeetsObligation(f: Fund)
    requires FullyHosted(f)
    ensures var n := |FundMembers(f)|;
            var after := AccountTotal(f.current, f.account) + Effect(DirectRows(f, FundMembers(f), n), f.account);
            && 2 * Abs(after - (Obligation(f) - CompensationBalance(f))) <= n * CENT
            && (FundInCents(f) ==> (after == Obligation(f) <==> CompensationBalance(f) == 0))
  {
    var members := FundMembers(f);
    RowsDrainDeltas(f, members, |members|);
    DeltasRound(f, members, |members|);
    ExactImbalance(f);
    if FundInCents(f) {
      forall m ensures IsCents(Available(f, m) - Get(f.requirements, (f.account, m))) {
        AvailableInCents(f, m);
      }
    }
    hide FundMembers, DirectRows, Effect, DeltaTo, ExactTo, AccountTotal, Obligation, CompensationBalance, FundInCents, Available, IsCents;
  }
}
