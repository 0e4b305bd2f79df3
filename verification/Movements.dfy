/** The movement fold of a close (`_compute_movements`, `_apply_wallet_normalization`,
    `_wallet_sweep_compensation`): every posted transaction moves a physical position per account and
    member and an economic position per member. */
module Movements {
  import opened Money
  import opened Wrappers
  import opened FiniteSums
  import opened Allocation
  import opened Positions
  import Fx

  datatype Flow = Unclassified | Income | Expense

  datatype Entry = Entry(account: int, debit: bool, amount: int, currency: string, flow: Flow)

  datatype Kind = Transfer | Investment | OtherKind

  datatype Tx = Tx(id: int, date: int, kind: Kind, ownership: Option<int>, entries: seq<Entry>)

  /** What the fold reads: which ledger accounts participate, who owns what, the resolved allocation of
      an ownership at a date (none when blocked), and the quotes. */
  datatype Config = Config(
    participants: map<int, int>,
    ownerships: map<int, int>,
    vectors: (int, int) -> Option<seq<Weight>>,
    rates: (Fx.Pair, int) -> Option<nat>,
    base: string,
    pivot: string,
    normalizations: set<int>,
    sweeps: set<int>)

  /** The resolved allocation of an ownership. */
  function Vector(c: Config, ownership: int, date: int): Option<seq<Weight>> { c.vectors(ownership, date) }

  ghost predicate ValidConfig(c: Config) {
    forall o, d :: Vector(c, o, d).Some? ==> ValidVector(Vector(c, o, d).value)
  }

  datatype Blocker =
    | MissingFxRate(tx: int)
    | AllocationBlocked(ownership: int)
    | OutsidePerimeter(tx: int)
    | MissingOwnership(tx: int)

  datatype Compensation = Compensation(tx: int, members: map<int, int>)

  /** Everything the fold accumulates. */
  datatype Books = Books(
    members: Position,
    totals: map<int, int>,
    income: map<int, int>,
    expense: map<int, int>,
    physical: map<int, int>,
    normalized: map<int, int>,
    compensations: seq<Compensation>,
    blockers: seq<Blocker>)

  function AppendUnique(rows: seq<Blocker>, row: Blocker): seq<Blocker> {
    if row in rows then rows else rows + [row]
  }

  // ---- One entry -------------------------------------------------------------------------------

  /** The entry in the base currency, debit positive. */
  function Converted(c: Config, tx: Tx, e: Entry): (r: Option<int>)
    ensures r.Some? ==> IsCents(r.value)
  {
    var signed := if e.debit then e.amount else -e.amount;
    match Fx.Convert(signed, e.currency, c.base, c.pivot, (pair: Fx.Pair) => c.rates(pair, tx.date), false)
    case Ok(v) => Some(v)
    case Err(_) => None
  }

  /** How an entry is seen by the physical side. */
  datatype Leg =
    | Foreign
    | NoRate
    | Unowned(account: int, amount: int)
    | Blocked(account: int, amount: int, ownership: int)
    | Split(account: int, amount: int, shares: seq<Share>)

  function LegOf(c: Config, tx: Tx, e: Entry): Leg {
    if e.account !in c.participants then Foreign else
    var account := c.participants[e.account];
    match Converted(c, tx, e)
    case None => NoRate
    case Some(amount) =>
      if account !in c.ownerships then Unowned(account, amount) else
      match Vector(c, c.ownerships[account], tx.date)
      case None => Blocked(account, amount, c.ownerships[account])
      case Some(v) => Split(account, amount, Allocated(amount, v, CENT))
  }

  predicate Held(leg: Leg) { leg.Unowned? || leg.Blocked? || leg.Split? }

  lemma SplitLeg(c: Config, tx: Tx, e: Entry)
    requires ValidConfig(c) && LegOf(c, tx, e).Split?
    ensures SumShares(LegOf(c, tx, e).shares) == LegOf(c, tx, e).amount && AllCents(LegOf(c, tx, e).shares)
  {
    var v := Vector(c, c.ownerships[c.participants[e.account]], tx.date).value;
    var amount := Converted(c, tx, e).value;
    AllocatedSum(amount, v, CENT);
    AllocatedCents(amount, v);
    hide Converted, Allocated;
  }

  // ---- The physical side of one transaction ----------------------------------------------------

  function MembersAfter(c: Config, tx: Tx, p: Position, n: nat): Position
    requires n <= |tx.entries|
  {
    if n == 0 then p else
    var q := MembersAfter(c, tx, p, n - 1);
    match LegOf(c, tx, tx.entries[n - 1])
    case Split(account, _, shares) => AddShares(q, account, shares, |shares|)
    case _ => q
  }

  /** `physical_by_member` of the transaction. */
  function SplitAfter(c: Config, tx: Tx, n: nat): map<int, int>
    requires n <= |tx.entries|
  {
    if n == 0 then map[] else
    var q := SplitAfter(c, tx, n - 1);
    match LegOf(c, tx, tx.entries[n - 1])
    case Split(_, _, shares) => AddMembers(q, shares, |shares|)
    case _ => q
  }

  function PhysicalAfter(c: Config, tx: Tx, d: map<int, int>, n: nat): map<int, int>
    requires n <= |tx.entries|
  {
    if n == 0 then d else
    var q := PhysicalAfter(c, tx, d, n - 1);
    var leg := LegOf(c, tx, tx.entries[n - 1]);
    if Held(leg) then Plus(q, leg.account, leg.amount) else q
  }

  /** `participant_total` of the transaction. */
  function ParticipantTotal(c: Config, tx: Tx, n: nat): int
    requires n <= |tx.entries|
  {
    if n == 0 then 0 else
    var leg := LegOf(c, tx, tx.entries[n - 1]);
    ParticipantTotal(c, tx, n - 1) + if Held(leg) then leg.amount else 0
  }

  function PhysicalBlockers(c: Config, tx: Tx, b: seq<Blocker>, n: nat): seq<Blocker>
    requires n <= |tx.entries|
  {
    if n == 0 then b else
    var q := PhysicalBlockers(c, tx, b, n - 1);
    match LegOf(c, tx, tx.entries[n - 1])
    case NoRate => AppendUnique(q, MissingFxRate(tx.id))
    case Blocked(_, _, ownership) => AppendUnique(q, AllocationBlocked(ownership))
    case _ => q
  }

  // ---- The economic side of one transaction ----------------------------------------------------

  /** The entry's effect on household wealth: income credited or expense reversed is positive. */
  function EconomicAmount(c: Config, tx: Tx, e: Entry): (r: Option<int>)
    ensures r.Some? ==> IsCents(r.value)
  {
    Converted(c, tx, e.(debit := !e.debit))
  }

  function FlowTotal(c: Config, tx: Tx, flow: Flow, n: nat): int
    requires n <= |tx.entries|
  {
    if n == 0 then 0 else
    var e := tx.entries[n - 1];
    FlowTotal(c, tx, flow, n - 1)
    + if e.flow == flow && EconomicAmount(c, tx, e).Some? then EconomicAmount(c, tx, e).value else 0
  }

  function IncomeDelta(c: Config, tx: Tx): int { FlowTotal(c, tx, Income, |tx.entries|) }

  function ExpenseDelta(c: Config, tx: Tx): int { -FlowTotal(c, tx, Expense, |tx.entries|) }

  function EconomicDelta(c: Config, tx: Tx): int { IncomeDelta(c, tx) - ExpenseDelta(c, tx) }

  function EconomicBlockers(c: Config, tx: Tx, b: seq<Blocker>, n: nat): seq<Blocker>
    requires n <= |tx.entries|
  {
    if n == 0 then b else
    var q := EconomicBlockers(c, tx, b, n - 1);
    var e := tx.entries[n - 1];
    if e.flow != Unclassified && EconomicAmount(c, tx, e).None? then AppendUnique(q, MissingFxRate(tx.id)) else q
  }

  // ---- One transaction -------------------------------------------------------------------------

  datatype Outcome =
    | Normalized
    | Swept
    | Internal
    | Outside
    | NoEffect
    | NoOwnership
    | NoVector(ownership: int)
    | Economic(vector: seq<Weight>)

  /** Which branch a transaction takes. */
  function OutcomeOf(c: Config, tx: Tx): Outcome {
    if tx.id in c.normalizations then Normalized
    else if tx.kind != OtherKind then
      (if ToCents(ParticipantTotal(c, tx, |tx.entries|)) != 0 then Outside
       else if tx.id in c.sweeps then Swept else Internal)
    else if ToCents(EconomicDelta(c, tx)) == 0 then NoEffect
    else if tx.ownership.None? then NoOwnership
    else
      match Vector(c, tx.ownership.value, tx.date)
      case None => NoVector(tx.ownership.value)
      case Some(v) => Economic(v)
  }

  function NormalizedAfter(c: Config, tx: Tx, d: map<int, int>, n: nat): map<int, int>
    requires n <= |tx.entries|
  {
    if n == 0 then d else
    var q := NormalizedAfter(c, tx, d, n - 1);
    var e := tx.entries[n - 1];
    if e.account in c.participants && Converted(c, tx, e).Some?
    then Plus(q, c.participants[e.account], Converted(c, tx, e).value)
    else q
  }

  function NormalizedBlockers(c: Config, tx: Tx, b: seq<Blocker>, n: nat): seq<Blocker>
    requires n <= |tx.entries|
  {
    if n == 0 then b else
    var q := NormalizedBlockers(c, tx, b, n - 1);
    var e := tx.entries[n - 1];
    if e.account in c.participants && Converted(c, tx, e).None? then AppendUnique(q, MissingFxRate(tx.id)) else q
  }

  function MembersOf(s: seq<Share>): set<int> { set i | 0 <= i < |s| :: s[i].member }

  /** Adds each listed member's share to a dictionary of member totals. */
  function Credit(t: map<int, int>, members: set<int>, s: seq<Share>): map<int, int> {
    map m | m in t.Keys + members :: if m in members then Get(t, m) + ShareOf(s, m) else t[m]
  }

  /** A sweep hands one member's cash to the shared wallet: the others owe their part. */
  function SweepRows(split: map<int, int>): map<int, int> {
    map m | m in split && ToCents(split[m]) != 0 :: ToCents(-split[m])
  }

  /** What each member is owed: its economic share less what physically moved for it. */
  function CompensationRows(members: set<int>, s: seq<Share>, split: map<int, int>): map<int, int> {
    map m | m in members && ToCents(ShareOf(s, m) - Get(split, m)) != 0 :: ToCents(ShareOf(s, m) - Get(split, m))
  }

  function AppendRows(compensations: seq<Compensation>, tx: int, rows: map<int, int>): seq<Compensation> {
    if rows == map[] then compensations else compensations + [Compensation(tx, rows)]
  }

  /** The physical effect, shared by every transaction that is not a normalisation. */
  function Move(c: Config, b: Books, tx: Tx): Books {
    var n := |tx.entries|;
    b.(members := MembersAfter(c, tx, b.members, n),
       physical := PhysicalAfter(c, tx, b.physical, n),
       blockers := PhysicalBlockers(c, tx, b.blockers, n))
  }

  function Settle(c: Config, b: Books, tx: Tx, v: seq<Weight>): Books {
    var split := SplitAfter(c, tx, |tx.entries|);
    var economic := Allocated(EconomicDelta(c, tx), v, CENT);
    var members := MembersOf(economic) + split.Keys;
    b.(totals := Credit(b.totals, members, economic),
       income := Credit(b.income, members, Allocated(IncomeDelta(c, tx), v, CENT)),
       expense := Credit(b.expense, members, Allocated(ExpenseDelta(c, tx), v, CENT)),
       compensations := AppendRows(b.compensations, tx.id, CompensationRows(members, economic, split)))
  }

  function Step(c: Config, b: Books, tx: Tx): Books {
    var o := OutcomeOf(c, tx);
    if o.Normalized? then Normalize(c, b, tx) else Conclude(c, Move(c, b, tx), tx, o)
  }

  function Normalize(c: Config, b: Books, tx: Tx): Books {
    b.(normalized := NormalizedAfter(c, tx, b.normalized, |tx.entries|),
       blockers := NormalizedBlockers(c, tx, b.blockers, |tx.entries|))
  }

  /** What follows the physical effect. */
  function Conclude(c: Config, moved: Books, tx: Tx, o: Outcome): Books {
    match o
    case Normalized | Internal => moved
    case Swept => moved.(compensations := AppendRows(moved.compensations, tx.id, SweepRows(SplitAfter(c, tx, |tx.entries|))))
    case Outside => Block(moved, OutsidePerimeter(tx.id))
    case NoEffect => Classify(c, moved, tx)
    case NoOwnership => Block(Classify(c, moved, tx), MissingOwnership(tx.id))
    case NoVector(ownership) => Block(Classify(c, moved, tx), AllocationBlocked(ownership))
    case Economic(v) => Settle(c, Classify(c, moved, tx), tx, v)
  }

  function Block(b: Books, row: Blocker): Books { b.(blockers := AppendUnique(b.blockers, row)) }

  /** Reading the classified entries of a transaction can only add blockers. */
  function Classify(c: Config, b: Books, tx: Tx): Books {
    b.(blockers := EconomicBlockers(c, tx, b.blockers, |tx.entries|))
  }

  function Fold(c: Config, b: Books, txs: seq<Tx>, n: nat): Books
    requires n <= |txs|
  {
    if n == 0 then b else Step(c, Fold(c, b, txs, n - 1), txs[n - 1])
  }

  // ---- Everything in a position moves by whole cents -------------------------------------------

  lemma {:induction false} FlowTotalCents(c: Config, tx: Tx, flow: Flow, n: nat)
    requires n <= |tx.entries|
    ensures IsCents(FlowTotal(c, tx, flow, n))
  {
    if n > 0 {
      FlowTotalCents(c, tx, flow, n - 1);
      var r := EconomicAmount(c, tx, tx.entries[n - 1]);
      hide EconomicAmount;
      if r.Some? { CentsAdd(FlowTotal(c, tx, flow, n - 1), r.value); }
      hide IsCents;
    }
  }

  lemma {:induction false} ShareOfCents(s: seq<Share>, m: int, n: nat)
    requires AllCents(s) && n <= |s|
    ensures IsCents(ShareOfTo(s, m, n))
  {
    if n > 0 { ShareOfCents(s, m, n - 1); }
  }

  lemma {:induction false} SplitCents(c: Config, tx: Tx, n: nat, m: int)
    requires ValidConfig(c) && n <= |tx.entries|
    ensures IsCents(Get(SplitAfter(c, tx, n), m))
  {
    if n > 0 {
      SplitCents(c, tx, n - 1, m);
      var leg := LegOf(c, tx, tx.entries[n - 1]);
      if leg.Split? {
        SplitLeg(c, tx, tx.entries[n - 1]);
        ShareOfCents(leg.shares, m, |leg.shares|);
        AddMembersGet(SplitAfter(c, tx, n - 1), leg.shares, |leg.shares|, m);
        CentsAdd(Get(SplitAfter(c, tx, n - 1), m), ShareOf(leg.shares, m));
      }
      hide LegOf, IsCents;
    }
  }

  // ---- Physical side: accounts, members, household ---------------------------------------------

  /** Money a transaction moves on an account without splitting it among members. */
  function Unsplit(c: Config, tx: Tx, account: int, n: nat): int
    requires n <= |tx.entries|
  {
    if n == 0 then 0 else
    var leg := LegOf(c, tx, tx.entries[n - 1]);
    Unsplit(c, tx, account, n - 1)
    + if (leg.Unowned? || leg.Blocked?) && leg.account == account then leg.amount else 0
  }

  lemma {:induction false} AccountMoves(c: Config, tx: Tx, p: Position, d: map<int, int>, n: nat, a: int)
    requires ValidConfig(c) && n <= |tx.entries|
    ensures AccountTotal(MembersAfter(c, tx, p, n), a) - Get(PhysicalAfter(c, tx, d, n), a)
            == AccountTotal(p, a) - Get(d, a) - Unsplit(c, tx, a, n)
  {
    if n > 0 {
      AccountMoves(c, tx, p, d, n - 1, a);
      var leg := LegOf(c, tx, tx.entries[n - 1]);
      if leg.Split? {
        SplitLeg(c, tx, tx.entries[n - 1]);
        AddSharesAccount(MembersAfter(c, tx, p, n - 1), leg.account, leg.shares, |leg.shares|, a);
      }
      hide LegOf, AddShares, AllCents;
    }
  }

  lemma {:induction false} MemberMoves(c: Config, tx: Tx, p: Position, n: nat, m: int)
    requires n <= |tx.entries|
    ensures MemberTotal(MembersAfter(c, tx, p, n), m) == MemberTotal(p, m) + Get(SplitAfter(c, tx, n), m)
  {
    if n > 0 {
      MemberMoves(c, tx, p, n - 1, m);
      var leg := LegOf(c, tx, tx.entries[n - 1]);
      if leg.Split? {
        AddSharesMember(MembersAfter(c, tx, p, n - 1), leg.account, leg.shares, |leg.shares|, m);
        AddMembersGet(SplitAfter(c, tx, n - 1), leg.shares, |leg.shares|, m);
      }
      hide LegOf, AddShares, AddMembers;
    }
  }

  predicate AllSplit(c: Config, tx: Tx) {
    forall e :: e in tx.entries ==> !LegOf(c, tx, e).Unowned? && !LegOf(c, tx, e).Blocked?
  }

  /** When every participating entry is owned, what moved for the members is what moved on the accounts. */
  lemma {:induction false} SplitIsParticipantTotal(c: Config, tx: Tx, n: nat)
    requires ValidConfig(c) && AllSplit(c, tx) && n <= |tx.entries|
    ensures Total(SplitAfter(c, tx, n)) == ParticipantTotal(c, tx, n)
  {
    if n > 0 {
      SplitIsParticipantTotal(c, tx, n - 1);
      var leg := LegOf(c, tx, tx.entries[n - 1]);
      assert tx.entries[n - 1] in tx.entries;
      if leg.Split? {
        SplitLeg(c, tx, tx.entries[n - 1]);
        AddMembersTotal(SplitAfter(c, tx, n - 1), leg.shares, |leg.shares|);
      }
      hide LegOf, AddMembers, AllCents;
    }
  }

  lemma {:induction false} UnsplitIsZero(c: Config, tx: Tx, a: int, n: nat)
    requires AllSplit(c, tx) && n <= |tx.entries|
    ensures Unsplit(c, tx, a, n) == 0
  {
    if n > 0 {
      UnsplitIsZero(c, tx, a, n - 1);
      assert tx.entries[n - 1] in tx.entries;
      hide LegOf;
    }
  }

  // ---- Compensations ---------------------------------------------------------------------------

  /** What the first n compensations owe a member. */
  function CompensationTo(rows: seq<Compensation>, m: int, n: nat): int
    requires n <= |rows|
  {
    if n == 0 then 0 else CompensationTo(rows, m, n - 1) + Get(rows[n - 1].members, m)
  }

  function CompensationTotal(rows: seq<Compensation>, m: int): int { CompensationTo(rows, m, |rows|) }

  lemma {:induction false} CompensationPrefix(rows: seq<Compensation>, last: Compensation, m: int, n: nat)
    requires n <= |rows|
    ensures CompensationTo(rows + [last], m, n) == CompensationTo(rows, m, n)
  {
    if n > 0 { CompensationPrefix(rows, last, m, n - 1); }
  }

  lemma CompensationAppended(rows: seq<Compensation>, tx: int, members: map<int, int>, m: int)
    ensures CompensationTotal(AppendRows(rows, tx, members), m) == CompensationTotal(rows, m) + Get(members, m)
  {
    CompensationPrefix(rows, Compensation(tx, members), m, |rows|);
  }

  lemma {:induction false} ShareOfStranger(s: seq<Share>, m: int, n: nat)
    requires n <= |s| && m !in MembersOf(s)
    ensures ShareOfTo(s, m, n) == 0
  {
    if n > 0 {
      assert s[n - 1].member in MembersOf(s);
      ShareOfStranger(s, m, n - 1);
    }
  }

  lemma CreditGet(t: map<int, int>, members: set<int>, s: seq<Share>, m: int)
    requires MembersOf(s) <= members
    ensures Get(Credit(t, members, s), m) == Get(t, m) + ShareOf(s, m)
  {
    if m !in members { ShareOfStranger(s, m, |s|); }
  }

  lemma CreditTotal(t: map<int, int>, members: set<int>, s: seq<Share>)
    requires MembersOf(s) <= members
    ensures Total(Credit(t, members, s)) == Total(t) + SumShares(s)
  {
    forall m ensures Get(Credit(t, members, s), m) == Get(AddMembers(t, s, |s|), m) {
      CreditGet(t, members, s, m);
      AddMembersGet(t, s, |s|, m);
    }
    TotalAgree(Credit(t, members, s), AddMembers(t, s, |s|));
    AddMembersTotal(t, s, |s|);
  }

  /** All splits of one transaction use the same vector, hence the same members. */
  lemma SameMembers(a: int, b: int, v: seq<Weight>)
    ensures MembersOf(Allocated(a, v, CENT)) == MembersOf(Allocated(b, v, CENT))
  {
    var s, t := Allocated(a, v, CENT), Allocated(b, v, CENT);
    assert forall i :: 0 <= i < |v| ==> s[i].member == t[i].member;
    forall m ensures m in MembersOf(s) <==> m in MembersOf(t) {
      if m in MembersOf(s) { var i :| 0 <= i < |s| && s[i].member == m; assert t[i].member == m; }
      if m in MembersOf(t) { var i :| 0 <= i < |t| && t[i].member == m; assert s[i].member == m; }
    }
  }

  // ---- The conserved quantities ----------------------------------------------------------------

  /** Physical position of a member, plus what it is owed, less its economic position. */
  ghost function MemberGap(b: Books, m: int): int {
    MemberTotal(b.members, m) + CompensationTotal(b.compensations, m) - Get(b.totals, m)
  }

  /** What a transaction moves for a member without either crediting or compensating it. */
  function Uncompensated(c: Config, tx: Tx, m: int): int {
    match OutcomeOf(c, tx)
    case Normalized | Swept | Economic(_) => 0
    case _ => Get(SplitAfter(c, tx, |tx.entries|), m)
  }

  lemma SweepOwes(c: Config, tx: Tx, m: int)
    requires ValidConfig(c)
    ensures Get(SweepRows(SplitAfter(c, tx, |tx.entries|)), m) == -Get(SplitAfter(c, tx, |tx.entries|), m)
  {
    SplitCents(c, tx, |tx.entries|, m);
    hide SplitAfter, RoundHalfUp;
  }

  lemma SettlementOwes(c: Config, tx: Tx, v: seq<Weight>, members: set<int>, m: int)
    requires ValidConfig(c)
    requires members == MembersOf(Allocated(EconomicDelta(c, tx), v, CENT)) + SplitAfter(c, tx, |tx.entries|).Keys
    ensures var s, split := Allocated(EconomicDelta(c, tx), v, CENT), SplitAfter(c, tx, |tx.entries|);
            Get(CompensationRows(members, s, split), m) == ShareOf(s, m) - Get(split, m)
  {
    var s, split := Allocated(EconomicDelta(c, tx), v, CENT), SplitAfter(c, tx, |tx.entries|);
    EconomicCents(c, tx);
    AllocatedCents(EconomicDelta(c, tx), v);
    ShareOfCents(s, m, |s|);
    SplitCents(c, tx, |tx.entries|, m);
    if m !in members { ShareOfStranger(s, m, |s|); }
    CentsAdd(ShareOf(s, m), Get(split, m));
    hide SplitAfter, RoundHalfUp, Allocated, ShareOf, EconomicDelta, IsCents;
  }

  lemma EconomicCents(c: Config, tx: Tx)
    ensures IsCents(EconomicDelta(c, tx)) && IsCents(IncomeDelta(c, tx)) && IsCents(ExpenseDelta(c, tx))
  {
    hide FlowTotal;
    FlowTotalCents(c, tx, Income, |tx.entries|);
    FlowTotalCents(c, tx, Expense, |tx.entries|);
    CentsAdd(0, FlowTotal(c, tx, Expense, |tx.entries|));
    CentsAdd(IncomeDelta(c, tx), ExpenseDelta(c, tx));
    hide IsCents;
  }

  /** The conclusion never touches the physical positions, and credits members only when economic. */
  lemma Conclusion(c: Config, b: Books, tx: Tx, o: Outcome)
    ensures var after := Conclude(c, b, tx, o);
            && after.members == b.members && after.physical == b.physical
            && (!o.Economic? ==> after.totals == b.totals && after.income == b.income && after.expense == b.expense)
            && (o.Economic? ==> var credited := Settle(c, Classify(c, b, tx), tx, o.vector);
                after.totals == credited.totals && after.income == credited.income && after.expense == credited.expense)
  {
    hide SplitAfter, Allocated, SweepRows, CompensationRows, AppendRows, EconomicDelta, IncomeDelta, ExpenseDelta, Credit, MembersOf,
         EconomicBlockers, AppendUnique;
  }

  /** Only an economic transaction credits the members. */
  lemma StepCredits(c: Config, b: Books, tx: Tx)
    ensures var after := Step(c, b, tx);
            if OutcomeOf(c, tx).Economic? then
              var v := OutcomeOf(c, tx).vector;
              var s := Allocated(EconomicDelta(c, tx), v, CENT);
              var members := MembersOf(s) + SplitAfter(c, tx, |tx.entries|).Keys;
              && after.totals == Credit(b.totals, members, s)
              && after.income == Credit(b.income, members, Allocated(IncomeDelta(c, tx), v, CENT))
              && after.expense == Credit(b.expense, members, Allocated(ExpenseDelta(c, tx), v, CENT))
            else after.totals == b.totals && after.income == b.income && after.expense == b.expense
  {
    hide OutcomeOf, Conclude, MembersAfter, PhysicalAfter, PhysicalBlockers, SplitAfter, Allocated, EconomicDelta, IncomeDelta,
         ExpenseDelta, Credit, MembersOf, EconomicBlockers, NormalizedAfter, NormalizedBlockers, CompensationRows, AppendRows;
    Conclusion(c, Move(c, b, tx), tx, OutcomeOf(c, tx));
  }

  /** Every transaction but a wallet normalisation moves the physical positions. */
  lemma StepMembers(c: Config, b: Books, tx: Tx)
    ensures var after := Step(c, b, tx);
            if OutcomeOf(c, tx).Normalized? then after.members == b.members && after.physical == b.physical
            else && after.members == MembersAfter(c, tx, b.members, |tx.entries|)
                 && after.physical == PhysicalAfter(c, tx, b.physical, |tx.entries|)
  {
    hide OutcomeOf, Conclude, MembersAfter, PhysicalAfter, PhysicalBlockers, NormalizedAfter, NormalizedBlockers;
    Conclusion(c, Move(c, b, tx), tx, OutcomeOf(c, tx));
  }

  /** What each outcome adds to the list of compensations. */
  lemma StepCompensations(c: Config, b: Books, tx: Tx)
    ensures var after := Step(c, b, tx);
            var split := SplitAfter(c, tx, |tx.entries|);
            match OutcomeOf(c, tx)
            case Swept => after.compensations == AppendRows(b.compensations, tx.id, SweepRows(split))
            case Economic(v) =>
              var s := Allocated(EconomicDelta(c, tx), v, CENT);
              after.compensations == AppendRows(b.compensations, tx.id, CompensationRows(MembersOf(s) + split.Keys, s, split))
            case _ => after.compensations == b.compensations
  {
    hide OutcomeOf, MembersAfter, PhysicalAfter, PhysicalBlockers, SplitAfter, Allocated, EconomicDelta, IncomeDelta, ExpenseDelta,
         Credit, MembersOf, EconomicBlockers, NormalizedAfter, NormalizedBlockers, CompensationRows, SweepRows, AppendRows, AppendUnique;
  }

  /** Economic and sweep transactions leave every member's gap as it was, wallet normalisations touch
      nothing, and every other transaction moves it by exactly its physical split. */
  lemma StepMemberGap(c: Config, b: Books, tx: Tx, m: int)
    requires ValidConfig(c)
    ensures MemberGap(Step(c, b, tx), m) == MemberGap(b, m) + Uncompensated(c, tx, m)
  {
    hide Step, OutcomeOf, SplitAfter, MembersAfter, Allocated, CompensationRows, SweepRows, CompensationTotal, Credit, AppendRows,
         MembersOf, MemberTotal, EconomicDelta;
    StepMembers(c, b, tx);
    StepCredits(c, b, tx);
    StepCompensations(c, b, tx);
    var n := |tx.entries|;
    MemberMoves(c, tx, b.members, n, m);
    SweepOwes(c, tx, m);
    CompensationAppended(b.compensations, tx.id, SweepRows(SplitAfter(c, tx, n)), m);
    if OutcomeOf(c, tx).Economic? {
      var v := OutcomeOf(c, tx).vector;
      var s := Allocated(EconomicDelta(c, tx), v, CENT);
      var members := MembersOf(s) + SplitAfter(c, tx, n).Keys;
      SettlementOwes(c, tx, v, members, m);
      CompensationAppended(b.compensations, tx.id, CompensationRows(members, s, SplitAfter(c, tx, n)), m);
      assert MembersOf(s) <= members;
      CreditGet(b.totals, members, s, m);
    }
  }

  ghost function AccountGap(b: Books, a: int): int { AccountTotal(b.members, a) - Get(b.physical, a) }

  lemma StepAccountGap(c: Config, b: Books, tx: Tx, a: int)
    requires ValidConfig(c)
    ensures AccountGap(Step(c, b, tx), a)
            == AccountGap(b, a) - if OutcomeOf(c, tx).Normalized? then 0 else Unsplit(c, tx, a, |tx.entries|)
  {
    hide Step, OutcomeOf, MembersAfter, PhysicalAfter, AccountTotal, Unsplit;
    StepMembers(c, b, tx);
    AccountMoves(c, tx, b.members, b.physical, |tx.entries|, a);
  }

  lemma {:induction false} MembersTotalMoves(c: Config, tx: Tx, p: Position, n: nat)
    requires n <= |tx.entries|
    ensures Total(MembersAfter(c, tx, p, n)) == Total(p) + Total(SplitAfter(c, tx, n))
  {
    if n > 0 {
      MembersTotalMoves(c, tx, p, n - 1);
      var leg := LegOf(c, tx, tx.entries[n - 1]);
      if leg.Split? {
        AddSharesTotal(MembersAfter(c, tx, p, n - 1), leg.account, leg.shares, |leg.shares|);
        AddMembersTotal(SplitAfter(c, tx, n - 1), leg.shares, |leg.shares|);
      }
      hide LegOf, AddShares, AddMembers;
    }
  }

  /** What a transaction adds to the economic positions of the household. */
  function Credited(c: Config, tx: Tx): int {
    if OutcomeOf(c, tx).Economic? then EconomicDelta(c, tx) else 0
  }

  /** What a transaction adds to the physical positions of the household. */
  ghost function Moved(c: Config, tx: Tx): int {
    if OutcomeOf(c, tx).Normalized? then 0 else Total(SplitAfter(c, tx, |tx.entries|))
  }

  lemma StepHousehold(c: Config, b: Books, tx: Tx)
    requires ValidConfig(c)
    ensures Total(Step(c, b, tx).members) == Total(b.members) + Moved(c, tx)
    ensures Total(Step(c, b, tx).totals) == Total(b.totals) + Credited(c, tx)
  {
    StepMembers(c, b, tx);
    hide Step, OutcomeOf, MembersAfter, SplitAfter, Allocated, EconomicDelta, Credit, MembersOf;
    MembersTotalMoves(c, tx, b.members, |tx.entries|);
    StepCredits(c, b, tx);
    if OutcomeOf(c, tx).Economic? {
      EconomicVector(c, tx);
      var v := OutcomeOf(c, tx).vector;
      var s := Allocated(EconomicDelta(c, tx), v, CENT);
      AllocatedSum(EconomicDelta(c, tx), v, CENT);
      CreditTotal(b.totals, MembersOf(s) + SplitAfter(c, tx, |tx.entries|).Keys, s);
    }
  }

  lemma EconomicVector(c: Config, tx: Tx)
    requires ValidConfig(c) && OutcomeOf(c, tx).Economic?
    ensures ValidVector(OutcomeOf(c, tx).vector)
  {
    hide ParticipantTotal, EconomicDelta, ToCents;
    assert Vector(c, tx.ownership.value, tx.date) == Some(OutcomeOf(c, tx).vector);
  }

  /** No transaction reads as income and as expense at once. */
  predicate Unmixed(tx: Tx) {
    (forall e :: e in tx.entries ==> e.flow != Income) || (forall e :: e in tx.entries ==> e.flow != Expense)
  }

  lemma {:induction false} FlowTotalOfNone(c: Config, tx: Tx, flow: Flow, n: nat)
    requires n <= |tx.entries| && forall e :: e in tx.entries ==> e.flow != flow
    ensures FlowTotal(c, tx, flow, n) == 0
  {
    if n > 0 {
      FlowTotalOfNone(c, tx, flow, n - 1);
      assert tx.entries[n - 1] in tx.entries;
      hide EconomicAmount;
    }
  }

  /** Splitting income and expense separately agrees with splitting their difference. */
  lemma UnmixedShares(c: Config, tx: Tx, v: seq<Weight>, m: int)
    requires Unmixed(tx)
    ensures ShareOf(Allocated(EconomicDelta(c, tx), v, CENT), m)
            == ShareOf(Allocated(IncomeDelta(c, tx), v, CENT), m) - ShareOf(Allocated(ExpenseDelta(c, tx), v, CENT), m)
  {
    var n := |tx.entries|;
    if forall e :: e in tx.entries ==> e.flow != Expense {
      FlowTotalOfNone(c, tx, Expense, n);
      SharesOfZero(v, CENT, m, |v|);
    } else {
      FlowTotalOfNone(c, tx, Income, n);
      SharesOfZero(v, CENT, m, |v|);
      AllocatedOdd(ExpenseDelta(c, tx), v, CENT, m, |v|);
      assert EconomicDelta(c, tx) == -ExpenseDelta(c, tx);
    }
    hide FlowTotal, Allocated, ShareOfTo;
  }

  /** Economic position net of the income and expense credited. */
  function NetOfFlows(b: Books, m: int): int { Get(b.totals, m) - Get(b.income, m) + Get(b.expense, m) }

  lemma StepNetOfFlows(c: Config, b: Books, tx: Tx, m: int)
    requires ValidConfig(c) && Unmixed(tx)
    ensures NetOfFlows(Step(c, b, tx), m) == NetOfFlows(b, m)
  {
    hide Step, OutcomeOf, MembersAfter, SplitAfter, Allocated, EconomicDelta, IncomeDelta, ExpenseDelta, Credit, MembersOf, ShareOf, Unmixed;
    StepCredits(c, b, tx);
    if OutcomeOf(c, tx).Economic? {
      var v := OutcomeOf(c, tx).vector;
      var economic := Allocated(EconomicDelta(c, tx), v, CENT);
      var income, expense := Allocated(IncomeDelta(c, tx), v, CENT), Allocated(ExpenseDelta(c, tx), v, CENT);
      var members := MembersOf(economic) + SplitAfter(c, tx, |tx.entries|).Keys;
      SameMembers(EconomicDelta(c, tx), IncomeDelta(c, tx), v);
      SameMembers(EconomicDelta(c, tx), ExpenseDelta(c, tx), v);
      CreditGet(b.totals, members, economic, m);
      CreditGet(b.income, members, income, m);
      CreditGet(b.expense, members, expense, m);
      UnmixedShares(c, tx, v, m);
    }
  }

  lemma StepTotalFlows(c: Config, b: Books, tx: Tx)
    requires ValidConfig(c)
    ensures Total(Step(c, b, tx).totals) - Total(Step(c, b, tx).income) + Total(Step(c, b, tx).expense)
            == Total(b.totals) - Total(b.income) + Total(b.expense)
  {
    hide Step, OutcomeOf, MembersAfter, SplitAfter, Allocated, IncomeDelta, ExpenseDelta, Credit, MembersOf, SumShares;
    StepCredits(c, b, tx);
    if OutcomeOf(c, tx).Economic? {
      EconomicVector(c, tx);
      var v := OutcomeOf(c, tx).vector;
      var economic := Allocated(EconomicDelta(c, tx), v, CENT);
      var income, expense := Allocated(IncomeDelta(c, tx), v, CENT), Allocated(ExpenseDelta(c, tx), v, CENT);
      var members := MembersOf(economic) + SplitAfter(c, tx, |tx.entries|).Keys;
      SameMembers(EconomicDelta(c, tx), IncomeDelta(c, tx), v);
      SameMembers(EconomicDelta(c, tx), ExpenseDelta(c, tx), v);
      CreditTotal(b.totals, members, economic);
      CreditTotal(b.income, members, income);
      CreditTotal(b.expense, members, expense);
      AllocatedSum(EconomicDelta(c, tx), v, CENT);
      AllocatedSum(IncomeDelta(c, tx), v, CENT);
      AllocatedSum(ExpenseDelta(c, tx), v, CENT);
    }
  }

  // ---- The whole fold --------------------------------------------------------------------------

  function UncompensatedTo(c: Config, txs: seq<Tx>, m: int, n: nat): int
    requires n <= |txs|
  {
    if n == 0 then 0 else UncompensatedTo(c, txs, m, n - 1) + Uncompensated(c, txs[n - 1], m)
  }

  /** Over any list of transactions a member's gap moves by exactly what was left uncompensated. */
  lemma {:induction false} FoldMemberGap(c: Config, b: Books, txs: seq<Tx>, n: nat, m: int)
    requires ValidConfig(c) && n <= |txs|
    ensures MemberGap(Fold(c, b, txs, n), m) == MemberGap(b, m) + UncompensatedTo(c, txs, m, n)
  {
    hide Step, MemberGap, Uncompensated;
    if n > 0 {
      FoldMemberGap(c, b, txs, n - 1, m);
      StepMemberGap(c, Fold(c, b, txs, n - 1), txs[n - 1], m);
    }
  }

  function UnsplitTo(c: Config, txs: seq<Tx>, a: int, n: nat): int
    requires n <= |txs|
  {
    if n == 0 then 0 else
    UnsplitTo(c, txs, a, n - 1)
    + if OutcomeOf(c, txs[n - 1]).Normalized? then 0 else Unsplit(c, txs[n - 1], a, |txs[n - 1].entries|)
  }

  /** Over any list of transactions the member positions of an account follow its physical delta,
      except for entries whose ownership is missing or blocked. */
  lemma {:induction false} FoldAccountGap(c: Config, b: Books, txs: seq<Tx>, n: nat, a: int)
    requires ValidConfig(c) && n <= |txs|
    ensures AccountGap(Fold(c, b, txs, n), a) == AccountGap(b, a) - UnsplitTo(c, txs, a, n)
    ensures (forall tx :: tx in txs ==> AllSplit(c, tx)) ==> UnsplitTo(c, txs, a, n) == 0
  {
    hide Step, AccountGap, Unsplit, AllSplit, OutcomeOf;
    if n > 0 {
      FoldAccountGap(c, b, txs, n - 1, a);
      StepAccountGap(c, Fold(c, b, txs, n - 1), txs[n - 1], a);
      assert txs[n - 1] in txs;
      if AllSplit(c, txs[n - 1]) { UnsplitIsZero(c, txs[n - 1], a, |txs[n - 1].entries|); }
    }
  }

  ghost function MovedTo(c: Config, txs: seq<Tx>, n: nat): int
    requires n <= |txs|
  {
    if n == 0 then 0 else MovedTo(c, txs, n - 1) + Moved(c, txs[n - 1])
  }

  function CreditedTo(c: Config, txs: seq<Tx>, n: nat): int
    requires n <= |txs|
  {
    if n == 0 then 0 else CreditedTo(c, txs, n - 1) + Credited(c, txs[n - 1])
  }

  /** The household's physical total stays equal to its economic total exactly when what moved over
      the accounts is what was credited to the members. */
  lemma {:induction false} FoldHousehold(c: Config, b: Books, txs: seq<Tx>, n: nat)
    requires ValidConfig(c) && n <= |txs|
    ensures Total(Fold(c, b, txs, n).members) - Total(Fold(c, b, txs, n).totals)
            == Total(b.members) - Total(b.totals) + MovedTo(c, txs, n) - CreditedTo(c, txs, n)
  {
    hide Step, Moved, Credited;
    if n > 0 {
      FoldHousehold(c, b, txs, n - 1);
      StepHousehold(c, Fold(c, b, txs, n - 1), txs[n - 1]);
    }
  }

  /** An internal transfer or sweep whose accounts are all owned moves nothing in total. */
  lemma InternalIsZeroSum(c: Config, tx: Tx)
    requires ValidConfig(c) && AllSplit(c, tx)
    requires OutcomeOf(c, tx).Internal? || OutcomeOf(c, tx).Swept?
    ensures Total(SplitAfter(c, tx, |tx.entries|)) == 0
  {
    SplitIsParticipantTotal(c, tx, |tx.entries|);
    ParticipantCents(c, tx, |tx.entries|);
    hide ParticipantTotal, SplitAfter, RoundHalfUp;
  }

  lemma {:induction false} ParticipantCents(c: Config, tx: Tx, n: nat)
    requires n <= |tx.entries|
    ensures IsCents(ParticipantTotal(c, tx, n))
  {
    if n > 0 {
      ParticipantCents(c, tx, n - 1);
      var leg := LegOf(c, tx, tx.entries[n - 1]);
      HeldCents(c, tx, tx.entries[n - 1]);
      hide LegOf;
      if Held(leg) { CentsAdd(ParticipantTotal(c, tx, n - 1), leg.amount); }
      hide IsCents;
    }
  }

  lemma HeldCents(c: Config, tx: Tx, e: Entry)
    ensures Held(LegOf(c, tx, e)) ==> IsCents(LegOf(c, tx, e).amount)
  {
    hide Allocated, IsCents;
  }

  /** Over all members, closing less opening equals income less expense. */
  lemma {:induction false} FoldFlows(c: Config, b: Books, txs: seq<Tx>, n: nat)
    requires ValidConfig(c) && n <= |txs|
    ensures var f := Fold(c, b, txs, n);
            Total(f.totals) - Total(b.totals)
            == (Total(f.income) - Total(b.income)) - (Total(f.expense) - Total(b.expense))
  {
    hide Step;
    if n > 0 {
      FoldFlows(c, b, txs, n - 1);
      StepTotalFlows(c, Fold(c, b, txs, n - 1), txs[n - 1]);
    }
  }

  /** The same holds member by member when no transaction mixes income and expense. */
  lemma {:induction false} FoldFlowsOfMember(c: Config, b: Books, txs: seq<Tx>, n: nat, m: int)
    requires ValidConfig(c) && n <= |txs| && forall tx :: tx in txs ==> Unmixed(tx)
    ensures var f := Fold(c, b, txs, n);
            Get(f.totals, m) - Get(b.totals, m)
            == (Get(f.income, m) - Get(b.income, m)) - (Get(f.expense, m) - Get(b.expense, m))
  {
    if n > 0 {
      assert Unmixed(txs[n - 1]) by { assert txs[n - 1] in txs; }
      hide Step, Unmixed;
      FoldFlowsOfMember(c, b, txs, n - 1, m);
      StepNetOfFlows(c, Fold(c, b, txs, n - 1), txs[n - 1], m);
    }
  }
}
