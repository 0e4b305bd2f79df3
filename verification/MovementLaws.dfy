/** What the movement fold means, entry by entry: each figure it keeps moves by the signed worth of the entries
    that concern it, and it blocks exactly the transactions it cannot place. */
module MovementLaws {
  import opened Money
  import opened Wrappers
  import opened FiniteSums
  import opened Allocation
  import opened Positions
  import opened Movements
  import Fx

  // ---- The worth of an entry ---------------------------------------------------------------------------------

  /** A debit brings its amount in, a credit takes it out. */
  function Signed(e: Entry): int { if e.debit then e.amount else -e.amount }

  /** An amount at a date in the base currency, by the rates of the date. */
  ghost function Worth(c: Config, date: int, currency: string, amount: int): Option<int> {
    Fx.Value(amount, currency, c.base, c.pivot, (pair: Fx.Pair) => c.rates(pair, date))
  }

  ghost function In(c: Config, tx: Tx, e: Entry): Option<int> { Worth(c, tx.date, e.currency, Signed(e)) }

  /** The other sign, for what an entry adds to the wealth of its members. */
  ghost function Out(c: Config, tx: Tx, e: Entry): Option<int> { Worth(c, tx.date, e.currency, -Signed(e)) }

  lemma WorthIs(c: Config, date: int, currency: string, amount: int)
    ensures var r := Fx.Convert(amount, currency, c.base, c.pivot, (pair: Fx.Pair) => c.rates(pair, date), false);
            Worth(c, date, currency, amount) == if r.Ok? then Some(r.value) else None
  {
    Fx.ValueIs(amount, currency, c.base, c.pivot, (pair: Fx.Pair) => c.rates(pair, date));
    hide Fx.Convert, Fx.Value;
  }

  lemma EntryWorth(c: Config, tx: Tx, e: Entry)
    ensures In(c, tx, e) == Converted(c, tx, e) && Out(c, tx, e) == EconomicAmount(c, tx, e)
  {
    hide Worth, Fx.Convert;
    WorthIs(c, tx.date, e.currency, Signed(e));
    WorthIs(c, tx.date, e.currency, -Signed(e));
  }

  /** Cents of the base currency are worth themselves. */
  lemma BaseWorth(c: Config, date: int, amount: int)
    requires |c.base| == 3 && IsCents(amount)
    ensures Worth(c, date, c.base, amount) == Some(amount)
  {
    WorthIs(c, date, c.base, amount);
    hide Worth, ToCents;
  }

  // ---- What each figure moves by --------------------------------------------------------------------------------

  /** The figures of the books. */
  datatype Figure =
    | Physical(account: int)
    | Share(account: int, member: int)
    | Normalization(account: int)
    | Wealth(member: int)
    | Earned(member: int)
    | Spent(member: int)

  function Read(b: Books, f: Figure): int {
    match f
    case Physical(a) => Get(b.physical, a)
    case Share(a, m) => Get(b.members, (a, m))
    case Normalization(a) => Get(b.normalized, a)
    case Wealth(m) => Get(b.totals, m)
    case Earned(m) => Get(b.income, m)
    case Spent(m) => Get(b.expense, m)
  }

  predicate On(c: Config, e: Entry, a: int) { e.account in c.participants && c.participants[e.account] == a }

  /** The worth of the entries on an account. */
  ghost function MovedOn(c: Config, tx: Tx, a: int, n: nat): int
    requires n <= |tx.entries|
  {
    if n == 0 then 0 else
    var e := tx.entries[n - 1];
    MovedOn(c, tx, a, n - 1) + if On(c, e, a) && In(c, tx, e).Some? then In(c, tx, e).value else 0
  }

  /** A member's part in it, by the allocation of the account's owner at the date. */
  ghost function SharedOn(c: Config, tx: Tx, a: int, m: int, n: nat): int
    requires n <= |tx.entries|
  {
    if n == 0 then 0 else
    var e := tx.entries[n - 1];
    SharedOn(c, tx, a, m, n - 1)
    + if On(c, e, a) && In(c, tx, e).Some? && a in c.ownerships && c.vectors(c.ownerships[a], tx.date).Some?
      then ShareOf(Allocated(In(c, tx, e).value, c.vectors(c.ownerships[a], tx.date).value, CENT), m) else 0
  }

  /** What the entries of a class add to wealth: credits less debits. */
  ghost function Gained(c: Config, tx: Tx, flow: Flow, n: nat): int
    requires n <= |tx.entries|
  {
    if n == 0 then 0 else
    var e := tx.entries[n - 1];
    Gained(c, tx, flow, n - 1) + if e.flow == flow && Out(c, tx, e).Some? then Out(c, tx, e).value else 0
  }

  ghost function GainedBy(c: Config, tx: Tx, flow: Flow): int { Gained(c, tx, flow, |tx.entries|) }

  ghost function Net(c: Config, tx: Tx): int { GainedBy(c, tx, Income) + GainedBy(c, tx, Expense) }

  /** An ordinary transaction with a classified net that its owner's allocation can place. */
  ghost predicate Credits(c: Config, tx: Tx) {
    && tx.id !in c.normalizations && tx.kind.OtherKind? && Net(c, tx) != 0
    && tx.ownership.Some? && c.vectors(tx.ownership.value, tx.date).Some?
  }

  ghost function CreditOf(c: Config, tx: Tx, amount: int, m: int): int {
    if Credits(c, tx) then ShareOf(Allocated(amount, c.vectors(tx.ownership.value, tx.date).value, CENT), m) else 0
  }

  /** What a transaction adds to a figure. */
  ghost function Adds(c: Config, tx: Tx, f: Figure): int {
    var n := |tx.entries|;
    match f
    case Physical(a) => if tx.id in c.normalizations then 0 else MovedOn(c, tx, a, n)
    case Share(a, m) => if tx.id in c.normalizations then 0 else SharedOn(c, tx, a, m, n)
    case Normalization(a) => if tx.id in c.normalizations then MovedOn(c, tx, a, n) else 0
    case Wealth(m) => CreditOf(c, tx, Net(c, tx), m)
    case Earned(m) => CreditOf(c, tx, GainedBy(c, tx, Income), m)
    case Spent(m) => CreditOf(c, tx, -GainedBy(c, tx, Expense), m)
  }

  lemma {:induction false} AddSharesGet(p: Position, account: int, s: seq<Allocation.Share>, n: nat, a: int, m: int)
    requires n <= |s|
    ensures Get(AddShares(p, account, s, n), (a, m)) == Get(p, (a, m)) + if a == account then ShareOfTo(s, m, n) else 0
  {
    if n > 0 { AddSharesGet(p, account, s, n - 1, a, m); }
  }

  lemma LegIs(c: Config, tx: Tx, e: Entry)
    ensures var leg := LegOf(c, tx, e);
            && (Held(leg) <==> e.account in c.participants && In(c, tx, e).Some?)
            && (Held(leg) ==> leg.account == c.participants[e.account] && leg.amount == In(c, tx, e).value)
            && (leg.Split? <==> Held(leg) && leg.account in c.ownerships && c.vectors(c.ownerships[leg.account], tx.date).Some?)
            && (leg.Split? ==> leg.shares == Allocated(leg.amount, c.vectors(c.ownerships[leg.account], tx.date).value, CENT))
            && (leg.NoRate? <==> e.account in c.participants && In(c, tx, e).None?)
            && (leg.Blocked? <==> Held(leg) && leg.account in c.ownerships && c.vectors(c.ownerships[leg.account], tx.date).None?)
  {
    EntryWorth(c, tx, e);
    hide Converted, In, Allocated;
  }

  lemma {:induction false} EntriesMove(c: Config, tx: Tx, b: Books, a: int, m: int, n: nat)
    requires n <= |tx.entries|
    ensures Get(PhysicalAfter(c, tx, b.physical, n), a) == Get(b.physical, a) + MovedOn(c, tx, a, n)
    ensures Get(MembersAfter(c, tx, b.members, n), (a, m)) == Get(b.members, (a, m)) + SharedOn(c, tx, a, m, n)
  {
    if n > 0 {
      EntriesMove(c, tx, b, a, m, n - 1);
      var e := tx.entries[n - 1];
      LegIs(c, tx, e);
      var leg := LegOf(c, tx, e);
      if leg.Split? { AddSharesGet(MembersAfter(c, tx, b.members, n - 1), leg.account, leg.shares, |leg.shares|, a, m); }
      hide LegOf, In, Allocated, AddShares, ShareOfTo;
    }
  }

  lemma {:induction false} EntriesNormalize(c: Config, tx: Tx, d: map<int, int>, a: int, n: nat)
    requires n <= |tx.entries|
    ensures Get(NormalizedAfter(c, tx, d, n), a) == Get(d, a) + MovedOn(c, tx, a, n)
  {
    if n > 0 {
      EntriesNormalize(c, tx, d, a, n - 1);
      EntryWorth(c, tx, tx.entries[n - 1]);
      hide Converted, In;
    }
  }

  lemma {:induction false} FlowsGain(c: Config, tx: Tx, flow: Flow, n: nat)
    requires n <= |tx.entries|
    ensures FlowTotal(c, tx, flow, n) == Gained(c, tx, flow, n)
  {
    if n > 0 {
      FlowsGain(c, tx, flow, n - 1);
      EntryWorth(c, tx, tx.entries[n - 1]);
      hide EconomicAmount, Out;
    }
  }

  /** When members are credited, and with what. */
  lemma OutcomeIs(c: Config, tx: Tx)
    ensures IncomeDelta(c, tx) == GainedBy(c, tx, Income) && ExpenseDelta(c, tx) == -GainedBy(c, tx, Expense) && EconomicDelta(c, tx) == Net(c, tx)
    ensures OutcomeOf(c, tx).Normalized? <==> tx.id in c.normalizations
    ensures OutcomeOf(c, tx).Economic? <==> Credits(c, tx)
    ensures Credits(c, tx) ==> OutcomeOf(c, tx).vector == c.vectors(tx.ownership.value, tx.date).value
  {
    FlowsGain(c, tx, Income, |tx.entries|);
    FlowsGain(c, tx, Expense, |tx.entries|);
    EconomicCents(c, tx);
    hide FlowTotal, Gained, ParticipantTotal, RoundHalfUp, IsCents;
  }

  /** Every figure of the books moves by what the transaction adds to it. */
  lemma {:induction false} StepAdds(c: Config, b: Books, tx: Tx, f: Figure)
    ensures Read(Step(c, b, tx), f) == Read(b, f) + Adds(c, tx, f)
  {
    OutcomeIs(c, tx);
    var n := |tx.entries|;
    match f {
      case Physical(a) => StepMembers(c, b, tx); EntriesMove(c, tx, b, a, 0, n);
      case Share(a, m) => StepMembers(c, b, tx); EntriesMove(c, tx, b, a, m, n);
      case Normalization(a) => StepNormalizes(c, b, tx); EntriesNormalize(c, tx, b.normalized, a, n);
      case _ => StepCreditsMembers(c, b, tx, f);
    }
    hide Step, OutcomeOf, MembersAfter, PhysicalAfter, NormalizedAfter, MovedOn, SharedOn, Credits, CreditOf, Net, GainedBy;
  }

  lemma StepNormalizes(c: Config, b: Books, tx: Tx)
    ensures Step(c, b, tx).normalized
            == if OutcomeOf(c, tx).Normalized? then NormalizedAfter(c, tx, b.normalized, |tx.entries|) else b.normalized
  {
    ConcludeKeeps(c, Move(c, b, tx), tx, OutcomeOf(c, tx));
    hide OutcomeOf, Conclude, MembersAfter, PhysicalAfter, PhysicalBlockers, NormalizedAfter, NormalizedBlockers;
  }

  lemma ConcludeKeeps(c: Config, moved: Books, tx: Tx, o: Outcome)
    ensures Conclude(c, moved, tx, o).normalized == moved.normalized
  {
    hide SplitAfter, Allocated, EconomicDelta, IncomeDelta, ExpenseDelta, Credit, MembersOf, EconomicBlockers, CompensationRows,
         SweepRows, AppendRows, AppendUnique;
  }

  lemma StepCreditsMembers(c: Config, b: Books, tx: Tx, f: Figure)
    requires f.Wealth? || f.Earned? || f.Spent?
    ensures Read(Step(c, b, tx), f) == Read(b, f) + Adds(c, tx, f)
  {
    OutcomeIs(c, tx);
    StepCredits(c, b, tx);
    hide Step, OutcomeOf, SplitAfter, EconomicDelta, IncomeDelta, ExpenseDelta, Credit, MembersOf, Allocated, ShareOfTo, Net, GainedBy,
         MovedOn, SharedOn;
    if Credits(c, tx) {
      var v := c.vectors(tx.ownership.value, tx.date).value;
      hide Credits;
      var net, income, expense := EconomicDelta(c, tx), IncomeDelta(c, tx), ExpenseDelta(c, tx);
      var members := MembersOf(Allocated(net, v, CENT)) + SplitAfter(c, tx, |tx.entries|).Keys;
      SameMembers(net, income, v);
      SameMembers(net, expense, v);
      CreditGet(b.totals, members, Allocated(net, v, CENT), f.member);
      CreditGet(b.income, members, Allocated(income, v, CENT), f.member);
      CreditGet(b.expense, members, Allocated(expense, v, CENT), f.member);
    }
  }

  ghost function AddsTo(c: Config, txs: seq<Tx>, f: Figure, n: nat): int
    requires n <= |txs|
  {
    if n == 0 then 0 else AddsTo(c, txs, f, n - 1) + Adds(c, txs[n - 1], f)
  }

  /** Over any list every figure moves by what its transactions add to it. */
  lemma {:induction false} FoldAdds(c: Config, b: Books, txs: seq<Tx>, f: Figure, n: nat)
    requires n <= |txs|
    ensures Read(Fold(c, b, txs, n), f) == Read(b, f) + AddsTo(c, txs, f, n)
  {
    hide Step, Adds, Read;
    if n > 0 {
      FoldAdds(c, b, txs, f, n - 1);
      StepAdds(c, Fold(c, b, txs, n - 1), txs[n - 1], f);
    }
  }

  // ---- In the base currency: debits less credits --------------------------------------------------------------

  /** Every entry is in cents of the base currency. */
  predicate Local(c: Config, tx: Tx) { |c.base| == 3 && forall e :: e in tx.entries ==> e.currency == c.base && IsCents(e.amount) }

  /** Every entry on a participant has an owner with an allocation at the date. */
  predicate Owned(c: Config, tx: Tx) {
    forall e :: e in tx.entries && e.account in c.participants ==>
      var a := c.participants[e.account];
      a in c.ownerships && c.vectors(c.ownerships[a], tx.date).Some?
  }

  /** Debits or credits on an account. */
  function SideOn(c: Config, entries: seq<Entry>, a: int, debit: bool, n: nat): int
    requires n <= |entries|
  {
    if n == 0 then 0 else
    SideOn(c, entries, a, debit, n - 1) + if On(c, entries[n - 1], a) && entries[n - 1].debit == debit then entries[n - 1].amount else 0
  }

  /** Debits or credits of a class. */
  function ClassSide(entries: seq<Entry>, flow: Flow, debit: bool, n: nat): int
    requires n <= |entries|
  {
    if n == 0 then 0 else
    ClassSide(entries, flow, debit, n - 1) + if entries[n - 1].flow == flow && entries[n - 1].debit == debit then entries[n - 1].amount else 0
  }

  function DebitsLessCredits(c: Config, tx: Tx, a: int): int {
    SideOn(c, tx.entries, a, true, |tx.entries|) - SideOn(c, tx.entries, a, false, |tx.entries|)
  }

  function CreditsLessDebits(tx: Tx, flow: Flow): int {
    ClassSide(tx.entries, flow, false, |tx.entries|) - ClassSide(tx.entries, flow, true, |tx.entries|)
  }

  lemma LocalEntry(c: Config, tx: Tx, e: Entry)
    requires Local(c, tx) && e in tx.entries
    ensures In(c, tx, e) == Some(Signed(e)) && Out(c, tx, e) == Some(-Signed(e))
  {
    assert IsCents(0);
    CentsAdd(0, e.amount);
    hide Worth, IsCents;
    BaseWorth(c, tx.date, Signed(e));
    BaseWorth(c, tx.date, -Signed(e));
  }

  lemma {:induction false} LocalMoves(c: Config, tx: Tx, a: int, n: nat)
    requires Local(c, tx) && n <= |tx.entries|
    ensures MovedOn(c, tx, a, n) == SideOn(c, tx.entries, a, true, n) - SideOn(c, tx.entries, a, false, n)
  {
    if n > 0 {
      LocalMoves(c, tx, a, n - 1);
      LocalEntry(c, tx, tx.entries[n - 1]);
      hide In, Local;
    }
  }

  lemma {:induction false} LocalGains(c: Config, tx: Tx, flow: Flow, n: nat)
    requires Local(c, tx) && n <= |tx.entries|
    ensures Gained(c, tx, flow, n) == ClassSide(tx.entries, flow, false, n) - ClassSide(tx.entries, flow, true, n)
  {
    if n > 0 {
      LocalGains(c, tx, flow, n - 1);
      LocalEntry(c, tx, tx.entries[n - 1]);
      hide Out, Local;
    }
  }

  lemma OwnedIsSplit(c: Config, tx: Tx)
    requires Owned(c, tx)
    ensures AllSplit(c, tx)
  {
    forall e | e in tx.entries ensures !LegOf(c, tx, e).Unowned? && !LegOf(c, tx, e).Blocked? { LegIs(c, tx, e); }
    hide LegOf;
  }

  /** The balance and the member positions of an account move by its debits less its credits. */
  lemma LocalStepMoves(c: Config, b: Books, tx: Tx, a: int)
    requires ValidConfig(c) && Local(c, tx) && Owned(c, tx) && tx.id !in c.normalizations
    ensures Get(Step(c, b, tx).physical, a) == Get(b.physical, a) + DebitsLessCredits(c, tx, a)
    ensures AccountTotal(Step(c, b, tx).members, a) == AccountTotal(b.members, a) + DebitsLessCredits(c, tx, a)
  {
    StepAdds(c, b, tx, Physical(a));
    LocalMoves(c, tx, a, |tx.entries|);
    OwnedIsSplit(c, tx);
    UnsplitIsZero(c, tx, a, |tx.entries|);
    OutcomeIs(c, tx);
    hide Step, AccountTotal, MovedOn, SideOn, OutcomeOf, Unsplit, AllSplit, Local, Owned;
    StepAccountGap(c, b, tx, a);
  }

  /** A transaction credits the members when it is ordinary, its classified credits and debits do not cancel, and
      its owner has an allocation at the date. */
  predicate LocalCredits(c: Config, tx: Tx) {
    && tx.id !in c.normalizations && tx.kind.OtherKind? && CreditsLessDebits(tx, Income) + CreditsLessDebits(tx, Expense) != 0
    && tx.ownership.Some? && c.vectors(tx.ownership.value, tx.date).Some?
  }

  /** Then wealth rises by its classified credits less debits, income by those classified income, and expense by
      the debits less credits of those classified expense; otherwise nothing does. */
  lemma LocalStepCredits(c: Config, b: Books, tx: Tx)
    requires ValidConfig(c) && Local(c, tx)
    ensures var after := Step(c, b, tx);
            var income, expense := CreditsLessDebits(tx, Income), -CreditsLessDebits(tx, Expense);
            if LocalCredits(c, tx) then
              && Total(after.totals) == Total(b.totals) + income - expense
              && Total(after.income) == Total(b.income) + income && Total(after.expense) == Total(b.expense) + expense
            else after.totals == b.totals && after.income == b.income && after.expense == b.expense
  {
    OutcomeIs(c, tx);
    LocalGains(c, tx, Income, |tx.entries|);
    LocalGains(c, tx, Expense, |tx.entries|);
    StepCredits(c, b, tx);
    hide Step, OutcomeOf, ClassSide, Gained, SplitAfter, EconomicDelta, IncomeDelta, ExpenseDelta, Credit, MembersOf, Allocated, SumShares,
         Total, Local;
    if LocalCredits(c, tx) {
      EconomicVector(c, tx);
      var v := OutcomeOf(c, tx).vector;
      var net, income, expense := EconomicDelta(c, tx), IncomeDelta(c, tx), ExpenseDelta(c, tx);
      var members := MembersOf(Allocated(net, v, CENT)) + SplitAfter(c, tx, |tx.entries|).Keys;
      SameMembers(net, income, v);
      SameMembers(net, expense, v);
      CreditTotal(b.totals, members, Allocated(net, v, CENT));
      CreditTotal(b.income, members, Allocated(income, v, CENT));
      CreditTotal(b.expense, members, Allocated(expense, v, CENT));
      AllocatedSum(net, v, CENT);
      AllocatedSum(income, v, CENT);
      AllocatedSum(expense, v, CENT);
    }
  }

  function MovesTo(c: Config, txs: seq<Tx>, a: int, n: nat): int
    requires n <= |txs|
  {
    if n == 0 then 0 else MovesTo(c, txs, a, n - 1) + if txs[n - 1].id in c.normalizations then 0 else DebitsLessCredits(c, txs[n - 1], a)
  }

  /** Classified credits less debits of the transactions that credit the members. */
  function GainsTo(c: Config, txs: seq<Tx>, flow: Flow, n: nat): int
    requires n <= |txs|
  {
    if n == 0 then 0 else GainsTo(c, txs, flow, n - 1) + if LocalCredits(c, txs[n - 1]) then CreditsLessDebits(txs[n - 1], flow) else 0
  }

  lemma NormalizedStays(c: Config, b: Books, tx: Tx)
    requires tx.id in c.normalizations
    ensures Step(c, b, tx).physical == b.physical && Step(c, b, tx).members == b.members
  {
    OutcomeIs(c, tx);
    hide Step, OutcomeOf;
    StepMembers(c, b, tx);
  }

  /** A month in the base currency: every account moves by its debits less its credits, normalisations aside, and
      wealth, income and expense by the classified entries of what credits the members. */
  lemma {:induction false} LocalFold(c: Config, b: Books, txs: seq<Tx>, a: int, n: nat)
    requires ValidConfig(c) && n <= |txs| && forall tx :: tx in txs ==> Local(c, tx) && Owned(c, tx)
    ensures var f := Fold(c, b, txs, n);
            && Get(f.physical, a) == Get(b.physical, a) + MovesTo(c, txs, a, n)
            && AccountTotal(f.members, a) == AccountTotal(b.members, a) + MovesTo(c, txs, a, n)
            && Total(f.totals) == Total(b.totals) + GainsTo(c, txs, Income, n) + GainsTo(c, txs, Expense, n)
            && Total(f.income) == Total(b.income) + GainsTo(c, txs, Income, n)
            && Total(f.expense) == Total(b.expense) - GainsTo(c, txs, Expense, n)
  {
    if n > 0 {
      LocalFold(c, b, txs, a, n - 1);
      var tx, before := txs[n - 1], Fold(c, b, txs, n - 1);
      assert tx in txs;
      hide Step, Local, Owned, Total, AccountTotal, DebitsLessCredits, CreditsLessDebits, LocalCredits;
      if tx.id in c.normalizations { NormalizedStays(c, before, tx); } else { LocalStepMoves(c, before, tx, a); }
      LocalStepCredits(c, before, tx);
    }
  }

  // ---- What is blocked ----------------------------------------------------------------------------------------------

  /** What moves on the participants in all. */
  ghost function MovedAll(c: Config, tx: Tx, n: nat): int
    requires n <= |tx.entries|
  {
    if n == 0 then 0 else
    var e := tx.entries[n - 1];
    MovedAll(c, tx, n - 1) + if e.account in c.participants && In(c, tx, e).Some? then In(c, tx, e).value else 0
  }

  /** Entries on participants have a rate and, where an owner is known, an allocation. */
  ghost predicate EntryPlaced(c: Config, tx: Tx, e: Entry) {
    e.account in c.participants ==>
      && In(c, tx, e).Some?
      && (tx.id !in c.normalizations && c.participants[e.account] in c.ownerships ==>
            c.vectors(c.ownerships[c.participants[e.account]], tx.date).Some?)
  }

  /** Transfers and investments stay within the participants; of any other transaction the classified entries have
      a rate and, unless they cancel, an owner with an allocation. */
  ghost predicate Placed(c: Config, tx: Tx) {
    && (forall e :: e in tx.entries ==> EntryPlaced(c, tx, e))
    && (tx.id !in c.normalizations ==>
          if tx.kind != OtherKind then MovedAll(c, tx, |tx.entries|) == 0
          else && (forall e :: e in tx.entries && e.flow != Unclassified ==> Out(c, tx, e).Some?)
               && (Net(c, tx) != 0 ==> tx.ownership.Some? && c.vectors(tx.ownership.value, tx.date).Some?))
  }

  lemma {:induction false} PhysicalBlocks(c: Config, tx: Tx, b: seq<Blocker>, n: nat)
    requires n <= |tx.entries| && tx.id !in c.normalizations
    ensures PhysicalBlockers(c, tx, b, n) == [] <==> b == [] && forall i :: 0 <= i < n ==> EntryPlaced(c, tx, tx.entries[i])
  {
    if n > 0 {
      PhysicalBlocks(c, tx, b, n - 1);
      LegIs(c, tx, tx.entries[n - 1]);
      hide LegOf, In, Allocated;
    }
  }

  lemma {:induction false} NormalizedBlocks(c: Config, tx: Tx, b: seq<Blocker>, n: nat)
    requires n <= |tx.entries| && tx.id in c.normalizations
    ensures NormalizedBlockers(c, tx, b, n) == [] <==> b == [] && forall i :: 0 <= i < n ==> EntryPlaced(c, tx, tx.entries[i])
  {
    if n > 0 {
      NormalizedBlocks(c, tx, b, n - 1);
      EntryWorth(c, tx, tx.entries[n - 1]);
      hide Converted, In;
    }
  }

  ghost predicate Classifiable(c: Config, tx: Tx, e: Entry) { e.flow != Unclassified ==> Out(c, tx, e).Some? }

  lemma {:induction false} EconomicBlocks(c: Config, tx: Tx, b: seq<Blocker>, n: nat)
    requires n <= |tx.entries|
    ensures EconomicBlockers(c, tx, b, n) == [] <==> b == [] && forall i :: 0 <= i < n ==> Classifiable(c, tx, tx.entries[i])
  {
    if n > 0 {
      EconomicBlocks(c, tx, b, n - 1);
      EntryWorth(c, tx, tx.entries[n - 1]);
      hide EconomicAmount, Out;
    }
  }

  lemma {:induction false} ParticipantsMove(c: Config, tx: Tx, n: nat)
    requires n <= |tx.entries|
    ensures ParticipantTotal(c, tx, n) == MovedAll(c, tx, n)
  {
    if n > 0 {
      ParticipantsMove(c, tx, n - 1);
      LegIs(c, tx, tx.entries[n - 1]);
      hide LegOf, In, Allocated;
    }
  }

  lemma StepBlockers(c: Config, b: Books, tx: Tx)
    ensures var n := |tx.entries|;
            var moved := PhysicalBlockers(c, tx, b.blockers, n);
            var after := Step(c, b, tx).blockers;
            match OutcomeOf(c, tx)
            case Normalized => after == NormalizedBlockers(c, tx, b.blockers, n)
            case Internal | Swept => after == moved
            case Outside => after != []
            case NoEffect | Economic(_) => after == EconomicBlockers(c, tx, moved, n)
            case NoOwnership | NoVector(_) => after != []
  {
    hide OutcomeOf, PhysicalBlockers, NormalizedBlockers, EconomicBlockers, MembersAfter, PhysicalAfter, NormalizedAfter, SplitAfter,
         Allocated, Credit, MembersOf, CompensationRows, SweepRows, AppendRows, EconomicDelta, IncomeDelta, ExpenseDelta;
  }

  lemma OutcomeCases(c: Config, tx: Tx)
    ensures var o := OutcomeOf(c, tx);
            if tx.id in c.normalizations then o.Normalized?
            else if tx.kind != OtherKind then
              if MovedAll(c, tx, |tx.entries|) != 0 then o.Outside? else if tx.id in c.sweeps then o.Swept? else o.Internal?
            else if Net(c, tx) == 0 then o.NoEffect?
            else if tx.ownership.Some? && c.vectors(tx.ownership.value, tx.date).Some? then o.Economic?
            else o.NoOwnership? || o.NoVector?
  {
    OutcomeIs(c, tx);
    ParticipantsMove(c, tx, |tx.entries|);
    ParticipantCents(c, tx, |tx.entries|);
    EconomicCents(c, tx);
    hide ParticipantTotal, EconomicDelta, IncomeDelta, ExpenseDelta, MovedAll, Net, GainedBy, RoundHalfUp, IsCents;
  }

  /** A transaction is blocked exactly when it cannot be placed. */
  lemma StepBlocks(c: Config, b: Books, tx: Tx)
    ensures Step(c, b, tx).blockers == [] <==> b.blockers == [] && Placed(c, tx)
  {
    var n := |tx.entries|;
    OutcomeCases(c, tx);
    StepBlockers(c, b, tx);
    assert (forall e :: e in tx.entries ==> EntryPlaced(c, tx, e)) <==> forall i :: 0 <= i < n ==> EntryPlaced(c, tx, tx.entries[i]);
    assert (forall e :: e in tx.entries ==> Classifiable(c, tx, e)) <==> forall i :: 0 <= i < n ==> Classifiable(c, tx, tx.entries[i]);
    if tx.id in c.normalizations { NormalizedBlocks(c, tx, b.blockers, n); } else { PhysicalBlocks(c, tx, b.blockers, n); }
    EconomicBlocks(c, tx, PhysicalBlockers(c, tx, b.blockers, n), n);
    hide EntryPlaced, OutcomeOf, Step, PhysicalBlockers, NormalizedBlockers, EconomicBlockers, MovedAll, Net, Out;
  }

  /** A month is unblocked exactly when every transaction can be placed. */
  lemma {:induction false} FoldBlocks(c: Config, b: Books, txs: seq<Tx>, n: nat)
    requires n <= |txs|
    ensures Fold(c, b, txs, n).blockers == [] <==> b.blockers == [] && forall i :: 0 <= i < n ==> Placed(c, txs[i])
  {
    hide Step, Placed;
    if n > 0 {
      FoldBlocks(c, b, txs, n - 1);
      StepBlocks(c, Fold(c, b, txs, n - 1), txs[n - 1]);
    }
  }

  // ---- What members are owed ------------------------------------------------------------------------------------------

  /** A member's part in everything that moves on owned participants. */
  ghost function SharedAll(c: Config, tx: Tx, m: int, n: nat): int
    requires n <= |tx.entries|
  {
    if n == 0 then 0 else
    var e := tx.entries[n - 1];
    SharedAll(c, tx, m, n - 1)
    + if e.account in c.participants && In(c, tx, e).Some? && c.participants[e.account] in c.ownerships
         && c.vectors(c.ownerships[c.participants[e.account]], tx.date).Some?
      then ShareOf(Allocated(In(c, tx, e).value, c.vectors(c.ownerships[c.participants[e.account]], tx.date).value, CENT), m) else 0
  }

  lemma {:induction false} SplitIsShared(c: Config, tx: Tx, m: int, n: nat)
    requires n <= |tx.entries|
    ensures Get(SplitAfter(c, tx, n), m) == SharedAll(c, tx, m, n)
  {
    if n > 0 {
      SplitIsShared(c, tx, m, n - 1);
      LegIs(c, tx, tx.entries[n - 1]);
      var leg := LegOf(c, tx, tx.entries[n - 1]);
      if leg.Split? { AddMembersGet(SplitAfter(c, tx, n - 1), leg.shares, |leg.shares|, m); }
      hide LegOf, In, Allocated, AddMembers, ShareOfTo;
    }
  }

  /** A credited transaction owes each member its share of the net less what physically moved for it; a sweep
      between participants takes back what moved; nothing else owes anything. */
  lemma StepOwes(c: Config, b: Books, tx: Tx, m: int)
    requires ValidConfig(c)
    ensures var owed := CompensationTotal(Step(c, b, tx).compensations, m) - CompensationTotal(b.compensations, m);
            var n := |tx.entries|;
            if Credits(c, tx) then owed == CreditOf(c, tx, Net(c, tx), m) - SharedAll(c, tx, m, n)
            else if tx.id !in c.normalizations && tx.kind != OtherKind && MovedAll(c, tx, n) == 0 && tx.id in c.sweeps then
              owed == -SharedAll(c, tx, m, n)
            else owed == 0
  {
    var n := |tx.entries|;
    OutcomeIs(c, tx);
    OutcomeCases(c, tx);
    StepCompensations(c, b, tx);
    SplitIsShared(c, tx, m, n);
    hide Step, OutcomeOf, SplitAfter, Allocated, EconomicDelta, IncomeDelta, ExpenseDelta, MembersOf, CompensationRows, SweepRows,
         AppendRows, CompensationTotal, MovedAll, SharedAll, Net, GainedBy, ShareOfTo;
    var split := SplitAfter(c, tx, n);
    if Credits(c, tx) {
      var v := c.vectors(tx.ownership.value, tx.date).value;
      var s := Allocated(EconomicDelta(c, tx), v, CENT);
      SettlementOwes(c, tx, v, MembersOf(s) + split.Keys, m);
      CompensationAppended(b.compensations, tx.id, CompensationRows(MembersOf(s) + split.Keys, s, split), m);
    } else if OutcomeOf(c, tx).Swept? {
      SweepOwes(c, tx, m);
      CompensationAppended(b.compensations, tx.id, SweepRows(split), m);
    }
  }
}
