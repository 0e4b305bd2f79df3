/** From positions and targets to transfers: what `_route_transfers` builds before its walk, and what
    executing the rows does to the accounts. */
module TransferPlan {
  import opened Money
  import opened Wrappers
  import opened FiniteSums
  import opened Routing

  datatype Role = Operating | PersonalDestination | AllocationDestination | Wallet | CreditCard | InvestmentPosition | InvestmentCash

  /** A settlement participant; only a personal destination has a member. */
  datatype Account = Account(id: int, role: Role, member: Option<int>, primary: bool)

  function ReasonOf(role: Role): Reason {
    match role
    case Operating => NextMonthReserve
    case AllocationDestination => PlannedAllocation
    case PersonalDestination => MemberResidual
    case Wallet => Reason.PhysicalCash
    case _ => Settlement
  }

  ghost predicate DistinctAccounts(accounts: seq<Account>) {
    forall i, j :: 0 <= i < j < |accounts| ==> accounts[i].id != accounts[j].id
  }

  // ---- The lists the walk starts from ------------------------------------------------------------

  /** Surplus of each account: current less target, in cents. */
  ghost function Net(current: Position, targets: Position, a: int): int {
    ToCents(AccountTotal(current, a) - AccountTotal(targets, a))
  }

  function SurplusList(accounts: seq<Account>, nets: seq<int>, n: nat): seq<Slot>
    requires n <= |accounts| == |nets|
  {
    if n == 0 then [] else
    var before := SurplusList(accounts, nets, n - 1);
    if nets[n - 1] > 0 then before + [Slot(accounts[n - 1].id, nets[n - 1])] else before
  }

  function DeficitOf(a: Account, net: int, needs: seq<Slot>, ownerships: map<int, int>): Deficit
    requires a.id in ownerships
  {
    Deficit(a.id, -net, ownerships[a.id], ReasonOf(a.role), a.member, needs)
  }

  function DeficitList(accounts: seq<Account>, nets: seq<int>, needs: seq<seq<Slot>>, ownerships: map<int, int>, n: nat): seq<Deficit>
    requires n <= |accounts| == |nets| == |needs|
    requires forall i :: 0 <= i < |accounts| && nets[i] < 0 ==> accounts[i].id in ownerships
  {
    if n == 0 then [] else
    var before := DeficitList(accounts, nets, needs, ownerships, n - 1);
    if nets[n - 1] < 0 then before + [DeficitOf(accounts[n - 1], nets[n - 1], needs[n - 1], ownerships)] else before
  }

  // ---- Members of an account, in order -------------------------------------------------------------

  predicate Increasing(keys: seq<int>) { forall i, j :: 0 <= i < j < |keys| ==> keys[i] < keys[j] }

  predicate LeastOf(s: set<int>, m: int) { forall k :: k in s ==> m <= k }

  /** `sorted(...)`: a finite set of ids in increasing order. */
  function Sorted(s: set<int>): (keys: seq<int>)
    ensures forall k :: k in keys <==> k in s
    ensures Increasing(keys)
    decreases |s|
  {
    if s == {} then [] else
    LeastExists(s);
    var m :| m in s && LeastOf(s, m);
    var rest := Sorted(s - {m});
    LeastFirst(s, m, rest);
    [m] + rest
  }

  lemma LeastFirst(s: set<int>, m: int, rest: seq<int>)
    requires m in s && LeastOf(s, m) && Increasing(rest) && forall k :: k in rest <==> k in s - {m}
    ensures Increasing([m] + rest) && forall k :: k in [m] + rest <==> k in s
  {
    var keys := [m] + rest;
    forall i, j | 0 <= i < j < |keys| ensures keys[i] < keys[j] {
      assert keys[j] == rest[j - 1] && rest[j - 1] in rest;
      assert i > 0 ==> keys[i] == rest[i - 1];
    }
  }

  lemma {:induction false} LeastExists(s: set<int>)
    requires s != {}
    ensures exists m :: m in s && LeastOf(s, m)
    decreases |s|
  {
    assert (forall k :: k !in s) ==> s == {};
    var m :| m in s;
    var rest := s - {m};
    assert forall k :: k in s ==> k == m || k in rest;
    if rest != {} {
      LeastExists(rest);
      var r :| r in rest && LeastOf(rest, r);
      var least := if r < m then r else m;
      assert least in s && LeastOf(s, least);
    } else {
      assert LeastOf(s, m);
    }
  }

  function MembersAt(p: Position, a: int): set<int> { set k | k in p && k.0 == a :: k.1 }

  /** What each member's target lacks at an account, for the members in the given order. */
  function NeedsOf(current: Position, targets: Position, a: int, members: seq<int>, n: nat): seq<Slot>
    requires n <= |members|
  {
    if n == 0 then [] else
    var before := NeedsOf(current, targets, a, members, n - 1);
    var lack := ToCents(Get(targets, (a, members[n - 1])) - Get(current, (a, members[n - 1])));
    if lack > 0 then before + [Slot(members[n - 1], lack)] else before
  }

  function MemberNeeds(current: Position, targets: Position, a: int): seq<Slot> {
    var members := Sorted(MembersAt(targets, a));
    NeedsOf(current, targets, a, members, |members|)
  }

  method SumAccount(p: Position, a: int) returns (total: int)
    ensures total == AccountTotal(p, a)
  {
    total := 0;
    var rest := p;
    while rest != map[]
      invariant forall k :: k in rest ==> k in p && rest[k] == p[k]
      invariant total + AccountTotal(rest, a) == AccountTotal(p, a)
      decreases |rest|
    {
      var k :| k in rest;
      AccountTotalPlus(rest - {k}, k, rest[k], a);
      assert Plus(rest - {k}, k, rest[k]) == rest;
      if k.0 == a { total := total + rest[k]; }
      rest := rest - {k};
    }
    assert AccountPart(rest, a) == map[];
  }

  // ---- The two lists ---------------------------------------------------------------------------------

  function SumInts(s: seq<int>, n: nat): int
    requires n <= |s|
  {
    if n == 0 then 0 else SumInts(s, n - 1) + s[n - 1]
  }

  function SumPositive(s: seq<int>, n: nat): int
    requires n <= |s|
  {
    if n == 0 then 0 else SumPositive(s, n - 1) + Max(0, s[n - 1])
  }

  lemma {:induction false} SlotsAppended(s: seq<Slot>, last: Slot, n: nat)
    requires n <= |s|
    ensures SumSlots(s + [last], n) == SumSlots(s, n)
  {
    if n > 0 { SlotsAppended(s, last, n - 1); }
  }

  lemma {:induction false} DeficitsAppended(s: seq<Deficit>, last: Deficit, n: nat)
    requires n <= |s|
    ensures SumDeficits(s + [last], n) == SumDeficits(s, n)
  {
    if n > 0 { DeficitsAppended(s, last, n - 1); }
  }

  lemma {:induction false} HeldAppended(s: seq<Slot>, last: Slot, a: int, n: nat)
    requires n <= |s|
    ensures Held(s + [last], a, n) == Held(s, a, n)
  {
    if n > 0 { HeldAppended(s, last, a, n - 1); }
  }

  lemma {:induction false} OwedAppended(s: seq<Deficit>, last: Deficit, a: int, n: nat)
    requires n <= |s|
    ensures Owed(s + [last], a, n) == Owed(s, a, n)
  {
    if n > 0 { OwedAppended(s, last, a, n - 1); }
  }

  /** The balance above (positive) or below target of the accounts with an id. */
  function NetAt(accounts: seq<Account>, nets: seq<int>, a: int, n: nat): int
    requires n <= |accounts| == |nets|
  {
    if n == 0 then 0 else NetAt(accounts, nets, a, n - 1) + if accounts[n - 1].id == a then nets[n - 1] else 0
  }

  lemma {:induction false} NetAtOne(accounts: seq<Account>, nets: seq<int>, i: nat, n: nat)
    requires n <= |accounts| == |nets| && DistinctAccounts(accounts) && i < |accounts|
    ensures NetAt(accounts, nets, accounts[i].id, n) == if i < n then nets[i] else 0
  {
    if n > 0 { NetAtOne(accounts, nets, i, n - 1); }
  }

  lemma {:induction false} SurplusHolds(accounts: seq<Account>, nets: seq<int>, n: nat)
    requires n <= |accounts| == |nets|
    ensures var list := SurplusList(accounts, nets, n);
            && SumSlots(list, |list|) == SumPositive(nets, n)
            && forall k :: 0 <= k < |list| ==> list[k].amount > 0
  {
    if n > 0 {
      SurplusHolds(accounts, nets, n - 1);
      var before := SurplusList(accounts, nets, n - 1);
      SlotsAppended(before, Slot(accounts[n - 1].id, nets[n - 1]), |before|);
    }
  }

  lemma {:induction false} DeficitsHold(accounts: seq<Account>, nets: seq<int>, needs: seq<seq<Slot>>, ownerships: map<int, int>, n: nat)
    requires Routable(accounts, nets, needs, ownerships) && n <= |accounts|
    ensures var list := DeficitList(accounts, nets, needs, ownerships, n);
            && SumDeficits(list, |list|) == SumPositive(nets, n) - SumInts(nets, n)
            && forall k :: 0 <= k < |list| ==> list[k].amount > 0 && Needed(list[k].members) && list[k].reason != Settlement
  {
    if n > 0 {
      DeficitsHold(accounts, nets, needs, ownerships, n - 1);
      var before := DeficitList(accounts, nets, needs, ownerships, n - 1);
      if nets[n - 1] < 0 {
        DeficitsAppended(before, DeficitOf(accounts[n - 1], nets[n - 1], needs[n - 1], ownerships), |before|);
      }
    }
  }

  /** The surplus list holds of an account what its positive balances say, the deficit list lacks the rest. */
  lemma {:induction false} ListsOf(accounts: seq<Account>, nets: seq<int>, needs: seq<seq<Slot>>, ownerships: map<int, int>, a: int, n: nat)
    requires Routable(accounts, nets, needs, ownerships) && n <= |accounts|
    ensures var held := Held(SurplusList(accounts, nets, n), a, |SurplusList(accounts, nets, n)|);
            var list := DeficitList(accounts, nets, needs, ownerships, n);
            var owed := Owed(list, a, |list|);
            && held - owed == NetAt(accounts, nets, a, n) && held >= 0 && owed >= 0
            && ((forall i :: 0 <= i < n && accounts[i].id == a ==> nets[i] <= 0) ==> held == 0)
            && ((forall i :: 0 <= i < n && accounts[i].id == a ==> nets[i] >= 0) ==> owed == 0)
  {
    if n > 0 {
      ListsOf(accounts, nets, needs, ownerships, a, n - 1);
      var slots := SurplusList(accounts, nets, n - 1);
      var before := DeficitList(accounts, nets, needs, ownerships, n - 1);
      HeldAppended(slots, Slot(accounts[n - 1].id, nets[n - 1]), a, |slots|);
      if nets[n - 1] < 0 {
        OwedAppended(before, DeficitOf(accounts[n - 1], nets[n - 1], needs[n - 1], ownerships), a, |before|);
      }
    }
  }

  /** What the router needs to know of the participants: distinct ids, and wherever a balance is below
      its target an ownership, a role that can receive, and non-negative member needs. */
  ghost predicate Routable(accounts: seq<Account>, nets: seq<int>, needs: seq<seq<Slot>>, ownerships: map<int, int>) {
    && |accounts| == |nets| == |needs| && DistinctAccounts(accounts)
    && (forall i :: 0 <= i < |accounts| && nets[i] < 0 ==> accounts[i].id in ownerships && ReasonOf(accounts[i].role) != Settlement)
    && (forall i :: 0 <= i < |needs| ==> Needed(needs[i]))
  }

  ghost function Plan(accounts: seq<Account>, nets: seq<int>, needs: seq<seq<Slot>>, ownerships: map<int, int>): Walk
    requires Routable(accounts, nets, needs, ownerships)
  {
    Start(SurplusList(accounts, nets, |accounts|), DeficitList(accounts, nets, needs, ownerships, |accounts|))
  }

  lemma PlanWalks(accounts: seq<Account>, nets: seq<int>, needs: seq<seq<Slot>>, ownerships: map<int, int>)
    requires Routable(accounts, nets, needs, ownerships)
    ensures Walking(Plan(accounts, nets, needs, ownerships))
  {
    SurplusHolds(accounts, nets, |accounts|);
    DeficitsHold(accounts, nets, needs, ownerships, |accounts|);
    hide SurplusList, DeficitList;
  }

  /** What executing rows adds to an account. */
  ghost function Effect(rows: seq<Row>, a: int): int { Sum(rows, InTo(a)) - Sum(rows, OutOf(a)) }

  ghost function PlanRows(accounts: seq<Account>, nets: seq<int>, needs: seq<seq<Slot>>, ownerships: map<int, int>): seq<Row>
    requires Routable(accounts, nets, needs, ownerships)
  {
    Finish(Plan(accounts, nets, needs, ownerships)).rows
  }

  /** An account at or below its target is never a source; one at or above it is never a destination. */
  lemma RowSides(accounts: seq<Account>, nets: seq<int>, needs: seq<seq<Slot>>, ownerships: map<int, int>, i: nat)
    requires Routable(accounts, nets, needs, ownerships) && i < |accounts|
    ensures nets[i] <= 0 ==> NeverFrom(PlanRows(accounts, nets, needs, ownerships), accounts[i].id)
    ensures nets[i] >= 0 ==> NeverTo(PlanRows(accounts, nets, needs, ownerships), accounts[i].id)
  {
    var w := Plan(accounts, nets, needs, ownerships);
    var rows := Finish(w).rows;
    PlanWalks(accounts, nets, needs, ownerships);
    NeverOverdrawn(w, accounts[i].id);
    ListsOf(accounts, nets, needs, ownerships, accounts[i].id, |accounts|);
    RowsPositive(w);
    NothingMoved(rows, accounts[i].id, |rows|);
    hide SurplusList, DeficitList, Walking, Finish, Held, Owed;
  }

  predicate IsAccount(accounts: seq<Account>, a: int) { exists i :: 0 <= i < |accounts| && accounts[i].id == a }

  /** The walk settles an account, on both sides, exactly when its net is compensated. */
  lemma SettledAccount(accounts: seq<Account>, nets: seq<int>, needs: seq<seq<Slot>>, ownerships: map<int, int>, a: int)
    requires Routable(accounts, nets, needs, ownerships)
    ensures var w := Plan(accounts, nets, needs, ownerships);
            var rows := Finish(w).rows;
            && (Effect(rows, a) + NetAt(accounts, nets, a, |accounts|) == 0
                <==> Sum(rows, OutOf(a)) == Held(w.surplus, a, |w.surplus|) && Sum(rows, InTo(a)) == Owed(w.deficit, a, |w.deficit|))
            && (!IsAccount(accounts, a) ==> Effect(rows, a) + NetAt(accounts, nets, a, |accounts|) == 0)
  {
    var w := Plan(accounts, nets, needs, ownerships);
    var rows := Finish(w).rows;
    PlanWalks(accounts, nets, needs, ownerships);
    NeverOverdrawn(w, a);
    ListsOf(accounts, nets, needs, ownerships, a, |accounts|);
    RowsPositive(w);
    NothingMoved(rows, a, |rows|);
    hide SurplusList, DeficitList, Walking, Finish, Held, Owed, NetAt, SumTo;
  }

  lemma ReachedEverywhere(accounts: seq<Account>, nets: seq<int>, rows: seq<Row>)
    requires |accounts| == |nets| && DistinctAccounts(accounts)
    requires forall a :: !IsAccount(accounts, a) ==> Effect(rows, a) + NetAt(accounts, nets, a, |accounts|) == 0
    ensures (forall a :: Effect(rows, a) + NetAt(accounts, nets, a, |accounts|) == 0)
            <==> forall i :: 0 <= i < |accounts| ==> nets[i] + Effect(rows, accounts[i].id) == 0
  {
    forall i | 0 <= i < |accounts| ensures NetAt(accounts, nets, accounts[i].id, |accounts|) == nets[i] {
      NetAtOne(accounts, nets, i, |accounts|);
    }
    hide Effect, NetAt;
  }

  /** Executing the plan brings every account to its target if and only if surpluses and deficits
      cancel out. */
  lemma PlanReaches(accounts: seq<Account>, nets: seq<int>, needs: seq<seq<Slot>>, ownerships: map<int, int>)
    requires Routable(accounts, nets, needs, ownerships)
    ensures SumInts(nets, |nets|) == 0 <==>
            forall i :: 0 <= i < |accounts| ==> nets[i] + Effect(PlanRows(accounts, nets, needs, ownerships), accounts[i].id) == 0
  {
    var w := Plan(accounts, nets, needs, ownerships);
    var rows := PlanRows(accounts, nets, needs, ownerships);
    PlanWalks(accounts, nets, needs, ownerships);
    SurplusHolds(accounts, nets, |accounts|);
    DeficitsHold(accounts, nets, needs, ownerships, |accounts|);
    DrainsAndFills(w);
    forall a
      ensures Effect(rows, a) + NetAt(accounts, nets, a, |accounts|) == 0
              <==> Sum(rows, OutOf(a)) == Held(w.surplus, a, |w.surplus|) && Sum(rows, InTo(a)) == Owed(w.deficit, a, |w.deficit|)
      ensures !IsAccount(accounts, a) ==> Effect(rows, a) + NetAt(accounts, nets, a, |accounts|) == 0
    {
      SettledAccount(accounts, nets, needs, ownerships, a);
    }
    ReachedEverywhere(accounts, nets, rows);
    hide SurplusList, DeficitList, Walking, Finish, SumSlots, SumDeficits, SumInts, SumPositive, Effect, Sum, Held, Owed, NetAt, IsAccount;
  }

  /** Otherwise every account misses its target by at most what surpluses and deficits differ by. */
  lemma PlanMisses(accounts: seq<Account>, nets: seq<int>, needs: seq<seq<Slot>>, ownerships: map<int, int>, i: nat)
    requires Routable(accounts, nets, needs, ownerships) && i < |accounts|
    ensures Abs(nets[i] + Effect(PlanRows(accounts, nets, needs, ownerships), accounts[i].id)) <= Abs(SumInts(nets, |nets|))
  {
    hide *;
    var w := Plan(accounts, nets, needs, ownerships);
    PlanWalks(accounts, nets, needs, ownerships);
    PlanSums(accounts, nets, needs, ownerships, i);
    WalkMisses(w, accounts[i].id);
  }

  lemma WalkMisses(w: Walk, a: int)
    requires Walking(w) && w.rows == []
    ensures Abs(Held(w.surplus, a, |w.surplus|) - Owed(w.deficit, a, |w.deficit|) + Effect(Finish(w).rows, a))
            <= Abs(SumSlots(w.surplus, |w.surplus|) - SumDeficits(w.deficit, |w.deficit|))
  {
    hide Walking, Finish, SumSlots, SumDeficits, Sum, Held, Owed;
    LeftBehind(w, a);
  }

  /** The lists add up to the balances they were made from. */
  lemma PlanSums(accounts: seq<Account>, nets: seq<int>, needs: seq<seq<Slot>>, ownerships: map<int, int>, i: nat)
    requires Routable(accounts, nets, needs, ownerships) && i < |accounts|
    ensures var w := Plan(accounts, nets, needs, ownerships);
            && w.rows == [] && PlanRows(accounts, nets, needs, ownerships) == Finish(w).rows
            && SumSlots(w.surplus, |w.surplus|) - SumDeficits(w.deficit, |w.deficit|) == SumInts(nets, |nets|)
            && Held(w.surplus, accounts[i].id, |w.surplus|) - Owed(w.deficit, accounts[i].id, |w.deficit|) == nets[i]
  {
    hide SurplusList, DeficitList, SumSlots, SumDeficits, SumInts, SumPositive, Held, Owed, NetAt, Finish;
    SurplusHolds(accounts, nets, |accounts|);
    DeficitsHold(accounts, nets, needs, ownerships, |accounts|);
    ListsOf(accounts, nets, needs, ownerships, accounts[i].id, |accounts|);
    NetAtOne(accounts, nets, i, |accounts|);
  }

  /** A row to account i: its owner is that of the account; either it serves a member the account needs something
      for, for the reason of the account's role, or it goes unattributed to the account's own member. */
  ghost predicate Labelled(row: Row, a: Account, needs: seq<Slot>, ownerships: map<int, int>) {
    && row.to == a.id && a.id in ownerships && row.ownership == ownerships[a.id]
    && ((row.member.Some? && (exists k :: 0 <= k < |needs| && needs[k].id == row.member.value)
         && match a.role
            case Operating => row.reason == NextMonthReserve
            case AllocationDestination => row.reason == PlannedAllocation
            case PersonalDestination => row.reason == MemberResidual
            case Wallet => row.reason == Reason.PhysicalCash
            case _ => row.reason == Settlement)
        || (row.reason == Settlement && row.member == a.member))
  }

  ghost predicate MadeFrom(d: Deficit, accounts: seq<Account>, nets: seq<int>, needs: seq<seq<Slot>>, ownerships: map<int, int>, i: nat) {
    && i < |accounts| == |nets| == |needs| && nets[i] < 0 && accounts[i].id in ownerships
    && d == DeficitOf(accounts[i], nets[i], needs[i], ownerships)
  }

  lemma {:induction false} DeficitsMade(accounts: seq<Account>, nets: seq<int>, needs: seq<seq<Slot>>, ownerships: map<int, int>, n: nat, j: nat)
    requires Routable(accounts, nets, needs, ownerships) && n <= |accounts| && j < |DeficitList(accounts, nets, needs, ownerships, n)|
    ensures exists i: nat :: MadeFrom(DeficitList(accounts, nets, needs, ownerships, n)[j], accounts, nets, needs, ownerships, i)
  {
    if n > 0 {
      var before := DeficitList(accounts, nets, needs, ownerships, n - 1);
      if j < |before| {
        DeficitsMade(accounts, nets, needs, ownerships, n - 1, j);
        var i: nat :| MadeFrom(before[j], accounts, nets, needs, ownerships, i);
        assert DeficitList(accounts, nets, needs, ownerships, n)[j] == before[j];
        assert MadeFrom(DeficitList(accounts, nets, needs, ownerships, n)[j], accounts, nets, needs, ownerships, i);
      } else {
        assert MadeFrom(DeficitList(accounts, nets, needs, ownerships, n)[j], accounts, nets, needs, ownerships, n - 1);
      }
    }
  }

  /** Every routed row goes to an account below its target and is labelled as that account demands. */
  lemma RowsLabelled(accounts: seq<Account>, nets: seq<int>, needs: seq<seq<Slot>>, ownerships: map<int, int>, r: nat)
    requires Routable(accounts, nets, needs, ownerships) && r < |PlanRows(accounts, nets, needs, ownerships)|
    ensures var row := PlanRows(accounts, nets, needs, ownerships)[r];
            exists i :: 0 <= i < |accounts| && nets[i] < 0 && Labelled(row, accounts[i], needs[i], ownerships)
  {
    var w := Plan(accounts, nets, needs, ownerships);
    FinishSays(w, w.deficit);
    var row := Finish(w).rows[r];
    assert RowSays(row, w.deficit);
    var j: nat :| j < |w.deficit| && Says(row, w.deficit[j]);
    DeficitsMade(accounts, nets, needs, ownerships, |accounts|, j);
    hide Finish, SurplusList, DeficitList;
    var i: nat :| MadeFrom(w.deficit[j], accounts, nets, needs, ownerships, i);
    assert Labelled(row, accounts[i], needs[i], ownerships);
  }

  // ---- The router on positions and targets ---------------------------------------------------------

  ghost function Nets(accounts: seq<Account>, current: Position, targets: Position): (nets: seq<int>)
    ensures |nets| == |accounts|
  {
    seq(|accounts|, i requires 0 <= i < |accounts| => Net(current, targets, accounts[i].id))
  }

  function AllNeeds(accounts: seq<Account>, current: Position, targets: Position): (needs: seq<seq<Slot>>)
    ensures |needs| == |accounts|
    ensures forall i :: 0 <= i < |needs| ==> Needed(needs[i])
  {
    NeedsArePositive(accounts, current, targets);
    seq(|accounts|, i requires 0 <= i < |accounts| => MemberNeeds(current, targets, accounts[i].id))
  }

  lemma {:induction false} NeedsOfPositive(current: Position, targets: Position, a: int, members: seq<int>, n: nat)
    requires n <= |members|
    ensures Needed(NeedsOf(current, targets, a, members, n))
  {
    if n > 0 { NeedsOfPositive(current, targets, a, members, n - 1); }
  }

  /** What a member's target exceeds its position by, in cents. */
  function Lack(current: Position, targets: Position, a: int, m: int): int { ToCents(Get(targets, (a, m)) - Get(current, (a, m))) }

  ghost predicate Serves(needs: seq<Slot>, m: int) { exists k :: 0 <= k < |needs| && needs[k].id == m }

  lemma NeedsNext(current: Position, targets: Position, a: int, members: seq<int>, n: nat)
    requires 0 < n <= |members|
    ensures var before, lack := NeedsOf(current, targets, a, members, n - 1), Lack(current, targets, a, members[n - 1]);
            NeedsOf(current, targets, a, members, n) == if lack > 0 then before + [Slot(members[n - 1], lack)] else before
  {
    hide ToCents, Get;
  }

  lemma {:induction false} NeedsLack(current: Position, targets: Position, a: int, members: seq<int>, n: nat)
    requires n <= |members|
    ensures var needs := NeedsOf(current, targets, a, members, n);
            forall slot :: slot in needs ==> slot.id in members && slot.amount == Lack(current, targets, a, slot.id) > 0
  {
    hide Lack;
    if n > 0 {
      NeedsNext(current, targets, a, members, n);
      hide NeedsOf;
      NeedsLack(current, targets, a, members, n - 1);
    }
  }

  lemma {:induction false} LackIsServed(current: Position, targets: Position, a: int, members: seq<int>, n: nat, j: nat)
    requires j < n <= |members| && Lack(current, targets, a, members[j]) > 0
    ensures Serves(NeedsOf(current, targets, a, members, n), members[j])
  {
    NeedsNext(current, targets, a, members, n);
    hide Lack, NeedsOf;
    var before, needs := NeedsOf(current, targets, a, members, n - 1), NeedsOf(current, targets, a, members, n);
    if j < n - 1 {
      LackIsServed(current, targets, a, members, n - 1, j);
      var k :| 0 <= k < |before| && before[k].id == members[j];
      assert needs[k].id == members[j];
    } else {
      assert needs[|before|].id == members[j];
    }
  }

  /** The members served at a destination are those with a target there above their position, for what they lack. */
  lemma MemberNeedsAre(current: Position, targets: Position, a: int)
    ensures var needs := MemberNeeds(current, targets, a);
            && (forall slot :: slot in needs ==> slot.id in MembersAt(targets, a) && slot.amount == Lack(current, targets, a, slot.id) > 0)
            && forall m :: m in MembersAt(targets, a) && Lack(current, targets, a, m) > 0 ==> Serves(needs, m)
  {
    var members := Sorted(MembersAt(targets, a));
    var needs := NeedsOf(current, targets, a, members, |members|);
    NeedsLack(current, targets, a, members, |members|);
    hide NeedsOf, Lack, Serves, Sorted;
    forall m | m in MembersAt(targets, a) && Lack(current, targets, a, m) > 0 ensures Serves(needs, m) {
      assert m in members;
      var j: nat :| j < |members| && members[j] == m;
      LackIsServed(current, targets, a, members, |members|, j);
    }
  }

  lemma NeedsArePositive(accounts: seq<Account>, current: Position, targets: Position)
    ensures forall a :: Needed(MemberNeeds(current, targets, a))
  {
    forall a ensures Needed(MemberNeeds(current, targets, a)) {
      var members := Sorted(MembersAt(targets, a));
      NeedsOfPositive(current, targets, a, members, |members|);
    }
  }

  /** An account below its target has an ownership; looking it up fails otherwise. */
  ghost predicate Owned(accounts: seq<Account>, current: Position, targets: Position, ownerships: map<int, int>) {
    forall i :: 0 <= i < |accounts| && Net(current, targets, accounts[i].id) < 0 ==> accounts[i].id in ownerships
  }

  method RouteTransfers(accounts: seq<Account>, current: Position, targets: Position, ownerships: map<int, int>)
    returns (rows: seq<Row>)
    requires Owned(accounts, current, targets, ownerships)
    ensures var nets, needs := Nets(accounts, current, targets), AllNeeds(accounts, current, targets);
            rows == Finish(Start(SurplusList(accounts, nets, |accounts|),
                                 DeficitList(accounts, nets, needs, ownerships, |accounts|))).rows
  {
    ghost var nets, needs := Nets(accounts, current, targets), AllNeeds(accounts, current, targets);
    hide Net, MemberNeeds;
    var surplus: seq<Slot> := [];
    var deficit: seq<Deficit> := [];
    for i := 0 to |accounts|
      invariant surplus == SurplusList(accounts, nets, i)
      invariant deficit == DeficitList(accounts, nets, needs, ownerships, i)
      invariant Needs(deficit)
    {
      var net := NetBalance(current, targets, accounts[i].id);
      if net > 0 {
        surplus := surplus + [Slot(accounts[i].id, net)];
      }
      if net < 0 {
        deficit := deficit + [DeficitOf(accounts[i], net, MemberNeeds(current, targets, accounts[i].id), ownerships)];
      }
    }
    rows := Route(surplus, deficit);
  }

  method NetBalance(current: Position, targets: Position, a: int) returns (net: int)
    ensures net == Net(current, targets, a)
  {
    var held := SumAccount(current, a);
    var target := SumAccount(targets, a);
    net := ToCents(held - target);
  }

  /** Whole cents wherever an account's balance is compared with its target. */
  ghost predicate CentBalances(accounts: seq<Account>, current: Position, targets: Position) {
    forall i :: 0 <= i < |accounts| ==> IsCents(AccountTotal(current, accounts[i].id) - AccountTotal(targets, accounts[i].id))
  }

  lemma {:induction false} NetsSum(accounts: seq<Account>, current: Position, targets: Position, n: nat)
    requires n <= |accounts| && CentBalances(accounts, current, targets)
    ensures SumInts(Nets(accounts, current, targets), n)
            == SumAccounts(accounts, current, n) - SumAccounts(accounts, targets, n)
  {
    if n > 0 {
      NetsSum(accounts, current, targets, n - 1);
      NetIsExact(accounts, current, targets, n - 1);
      hide AccountTotal, Nets;
    }
  }

  ghost function SumAccounts(accounts: seq<Account>, p: Position, n: nat): int
    requires n <= |accounts|
  {
    if n == 0 then 0 else SumAccounts(accounts, p, n - 1) + AccountTotal(p, accounts[n - 1].id)
  }

  lemma {:induction false} SumAccountsPlus(accounts: seq<Account>, p: Position, k: (int, int), d: int, n: nat)
    requires n <= |accounts| && DistinctAccounts(accounts)
    ensures SumAccounts(accounts, Plus(p, k, d), n)
            == SumAccounts(accounts, p, n) + if exists i :: 0 <= i < n && accounts[i].id == k.0 then d else 0
  {
    if n > 0 {
      SumAccountsPlus(accounts, p, k, d, n - 1);
      AccountTotalPlus(p, k, d, accounts[n - 1].id);
      hide AccountTotal, Plus;
    }
  }

  ghost predicate Within(p: Position, accounts: seq<Account>) { forall k :: k in p ==> IsAccount(accounts, k.0) }

  /** Adding up the accounts gives the grand total of a position that lies within them. */
  lemma {:induction false} SumAccountsIsTotal(accounts: seq<Account>, p: Position)
    requires DistinctAccounts(accounts) && Within(p, accounts)
    ensures SumAccounts(accounts, p, |accounts|) == Total(p)
    decreases |p|
  {
    if p == map[] {
      SumAccountsOfNone(accounts, |accounts|);
    } else {
      var k :| k in p;
      var rest := p - {k};
      TotalWithout(p, k);
      SumAccountsIsTotal(accounts, rest);
      assert p == Plus(rest, k, p[k]);
      SumAccountsPlus(accounts, rest, k, p[k], |accounts|);
    }
  }

  lemma {:induction false} SumAccountsOfNone(accounts: seq<Account>, n: nat)
    requires n <= |accounts|
    ensures SumAccounts(accounts, map[], n) == 0
  {
    if n > 0 {
      SumAccountsOfNone(accounts, n - 1);
      assert AccountPart(map[], accounts[n - 1].id) == map[];
    }
  }

  /** Executing every routed row leaves every account exactly at its target total if and only if the
      positions and the targets have the same grand total. */
  lemma TransfersReachTargets(accounts: seq<Account>, current: Position, targets: Position, ownerships: map<int, int>)
    requires Routable(accounts, Nets(accounts, current, targets), AllNeeds(accounts, current, targets), ownerships)
    requires CentBalances(accounts, current, targets) && Within(current, accounts) && Within(targets, accounts)
    ensures var rows := PlanRows(accounts, Nets(accounts, current, targets), AllNeeds(accounts, current, targets), ownerships);
            Total(current) == Total(targets) <==>
            forall i :: 0 <= i < |accounts| ==>
              AccountTotal(current, accounts[i].id) + Effect(rows, accounts[i].id) == AccountTotal(targets, accounts[i].id)
  {
    var nets, needs := Nets(accounts, current, targets), AllNeeds(accounts, current, targets);
    SumAccountsIsTotal(accounts, current);
    SumAccountsIsTotal(accounts, targets);
    NetsSum(accounts, current, targets, |accounts|);
    PlanReaches(accounts, nets, needs, ownerships);
    forall i | 0 <= i < |accounts|
      ensures nets[i] == AccountTotal(current, accounts[i].id) - AccountTotal(targets, accounts[i].id)
    {
      NetIsExact(accounts, current, targets, i);
    }
    hide PlanRows, Effect, AccountTotal, Nets, SumInts, Total, SumAccounts, AllNeeds, Routable, Within, CentBalances, IsAccount;
  }

  lemma NetIsExact(accounts: seq<Account>, current: Position, targets: Position, i: nat)
    requires CentBalances(accounts, current, targets) && i < |accounts|
    ensures Nets(accounts, current, targets)[i] == AccountTotal(current, accounts[i].id) - AccountTotal(targets, accounts[i].id)
  {
    assert IsCents(AccountTotal(current, accounts[i].id) - AccountTotal(targets, accounts[i].id));
    hide RoundHalfUp, AccountTotal, IsCents;
  }

  lemma NetNear(current: Position, targets: Position, a: int)
    ensures 2 * Abs(Net(current, targets, a) - (AccountTotal(current, a) - AccountTotal(targets, a))) <= CENT
  {
    hide AccountTotal, RoundHalfUp;
  }

  lemma {:induction false} NetsNear(accounts: seq<Account>, current: Position, targets: Position, n: nat)
    requires n <= |accounts|
    ensures 2 * Abs(SumInts(Nets(accounts, current, targets), n) - (SumAccounts(accounts, current, n) - SumAccounts(accounts, targets, n)))
            <= n * CENT
  {
    if n > 0 {
      NetsNear(accounts, current, targets, n - 1);
      assert Nets(accounts, current, targets)[n - 1] == Net(current, targets, accounts[n - 1].id);
      hide AccountTotal, Nets, Net;
      NetNear(current, targets, accounts[n - 1].id);
    }
  }

  /** From any positions, sub-cent ones included, executing every routed row leaves each account within half a
      cent for itself and for every account, and what the grand totals differ by. */
  lemma TransfersComeNear(accounts: seq<Account>, current: Position, targets: Position, ownerships: map<int, int>, i: nat)
    requires Routable(accounts, Nets(accounts, current, targets), AllNeeds(accounts, current, targets), ownerships)
    requires Within(current, accounts) && Within(targets, accounts) && i < |accounts|
    ensures var rows := PlanRows(accounts, Nets(accounts, current, targets), AllNeeds(accounts, current, targets), ownerships);
            var a := accounts[i].id;
            2 * Abs(AccountTotal(current, a) + Effect(rows, a) - AccountTotal(targets, a))
            <= (|accounts| + 1) * CENT + 2 * Abs(Total(current) - Total(targets))
  {
    hide *;
    var nets, needs := Nets(accounts, current, targets), AllNeeds(accounts, current, targets);
    NetOfOne(accounts, current, targets, i);
    TotalsByAccount(accounts, current, targets, ownerships);
    NetsNear(accounts, current, targets, |accounts|);
    PlanMisses(accounts, nets, needs, ownerships, i);
    var a := accounts[i].id;
    MissAdds(nets[i], AccountTotal(current, a) - AccountTotal(targets, a), Effect(PlanRows(accounts, nets, needs, ownerships), a),
             SumInts(nets, |nets|), Total(current) - Total(targets), |accounts|);
  }

  lemma NetOfOne(accounts: seq<Account>, current: Position, targets: Position, i: nat)
    requires i < |accounts|
    ensures 2 * Abs(Nets(accounts, current, targets)[i] - (AccountTotal(current, accounts[i].id) - AccountTotal(targets, accounts[i].id)))
            <= CENT
  {
    hide Net, AccountTotal;
    NetNear(current, targets, accounts[i].id);
  }

  lemma TotalsByAccount(accounts: seq<Account>, current: Position, targets: Position, ownerships: map<int, int>)
    requires Routable(accounts, Nets(accounts, current, targets), AllNeeds(accounts, current, targets), ownerships)
    requires Within(current, accounts) && Within(targets, accounts)
    ensures SumAccounts(accounts, current, |accounts|) == Total(current) && SumAccounts(accounts, targets, |accounts|) == Total(targets)
  {
    hide Within, Nets, AllNeeds, SumAccounts, Total;
    SumAccountsIsTotal(accounts, current);
    SumAccountsIsTotal(accounts, targets);
  }

  lemma MissAdds(net: int, exact: int, effect: int, sum: int, exactSum: int, n: nat)
    requires 2 * Abs(net - exact) <= CENT && Abs(net + effect) <= Abs(sum) && 2 * Abs(sum - exactSum) <= n * CENT
    ensures 2 * Abs(exact + effect) <= (n + 1) * CENT + 2 * Abs(exactSum)
  {
  }

  // ---- Attribution ---------------------------------------------------------------------------------

  function SumAt(p: Position, a: int, members: seq<int>, n: nat): int
    requires n <= |members|
  {
    if n == 0 then 0 else SumAt(p, a, members, n - 1) + Get(p, (a, members[n - 1]))
  }

  lemma {:induction false} SumAtPlus(p: Position, k: (int, int), d: int, a: int, members: seq<int>, n: nat)
    requires n <= |members| && Distinct(members)
    ensures SumAt(Plus(p, k, d), a, members, n)
            == SumAt(p, a, members, n) + if k.0 == a && k.1 in members[..n] then d else 0
  {
    if n > 0 {
      SumAtPlus(p, k, d, a, members, n - 1);
      assert members[..n] == members[..n - 1] + [members[n - 1]];
    }
  }

  lemma {:induction false} SumAtIsTotal(p: Position, a: int, members: seq<int>)
    requires Distinct(members) && forall k :: k in p && k.0 == a ==> k.1 in members
    ensures SumAt(p, a, members, |members|) == AccountTotal(p, a)
    decreases |p|
  {
    if p == map[] {
      SumAtOfNone(a, members, |members|);
      assert AccountPart(p, a) == map[];
    } else {
      var k :| k in p;
      var rest := p - {k};
      SumAtIsTotal(rest, a, members);
      assert p == Plus(rest, k, p[k]);
      AccountTotalPlus(rest, k, p[k], a);
      SumAtPlus(rest, k, p[k], a, members, |members|);
      assert members[..|members|] == members;
    }
  }

  lemma {:induction false} SumAtOfNone(a: int, members: seq<int>, n: nat)
    requires n <= |members|
    ensures SumAt(map[], a, members, n) == 0
  {
    if n > 0 { SumAtOfNone(a, members, n - 1); }
  }

  ghost predicate CentPosition(p: Position) { forall k :: k in p ==> IsCents(p[k]) }

  lemma DifferenceInCents(current: Position, targets: Position, k: (int, int))
    requires CentPosition(current) && CentPosition(targets)
    ensures ToCents(Get(targets, k) - Get(current, k)) == Get(targets, k) - Get(current, k)
  {
    assert IsCents(0);
    CentsAdd(Get(targets, k), Get(current, k));
    hide ToCents, IsCents;
  }

  lemma {:induction false} NeedsSum(current: Position, targets: Position, a: int, members: seq<int>, n: nat)
    requires n <= |members| && CentPosition(current) && CentPosition(targets)
    ensures var needs := NeedsOf(current, targets, a, members, n);
            SumSlots(needs, |needs|) >= SumAt(targets, a, members, n) - SumAt(current, a, members, n)
  {
    if n > 0 {
      NeedsSum(current, targets, a, members, n - 1);
      var before := NeedsOf(current, targets, a, members, n - 1);
      var difference := Get(targets, (a, members[n - 1])) - Get(current, (a, members[n - 1]));
      DifferenceInCents(current, targets, (a, members[n - 1]));
      hide ToCents, IsCents, Get;
      SlotsAppended(before, Slot(members[n - 1], difference), |before|);
    }
  }

  /** Every member with a stake in the account has a target there. */
  ghost predicate StakesTargeted(current: Position, targets: Position, a: int) {
    MembersAt(current, a) <= MembersAt(targets, a)
  }

  lemma NeedsCover(current: Position, targets: Position, a: int)
    requires CentPosition(current) && CentPosition(targets) && StakesTargeted(current, targets, a)
    ensures var needs := MemberNeeds(current, targets, a);
            SumSlots(needs, |needs|) >= AccountTotal(targets, a) - AccountTotal(current, a)
  {
    var members := Sorted(MembersAt(targets, a));
    NeedsSum(current, targets, a, members, |members|);
    forall k | k in current && k.0 == a ensures k.1 in members {
      assert k.1 in MembersAt(current, a);
    }
    forall k | k in targets && k.0 == a ensures k.1 in members {
      assert k.1 in MembersAt(targets, a);
    }
    SumAtIsTotal(current, a, members);
    SumAtIsTotal(targets, a, members);
  }

  lemma {:induction false} DeficitsCovered(accounts: seq<Account>, nets: seq<int>, needs: seq<seq<Slot>>, ownerships: map<int, int>, n: nat)
    requires Routable(accounts, nets, needs, ownerships) && n <= |accounts|
    requires forall i :: 0 <= i < n && nets[i] < 0 ==> SumSlots(needs[i], |needs[i]|) >= -nets[i]
    ensures AllCovered(DeficitList(accounts, nets, needs, ownerships, n))
  {
    if n > 0 {
      DeficitsCovered(accounts, nets, needs, ownerships, n - 1);
      if nets[n - 1] < 0 {
        var before := DeficitList(accounts, nets, needs, ownerships, n - 1);
        var last := DeficitOf(accounts[n - 1], nets[n - 1], needs[n - 1], ownerships);
        assert Covered(last);
        assert AllCovered(before + [last]);
      }
    }
  }

  /** In whole cents, no row is left unattributed when at every destination each member with a stake
      has a target. */
  lemma TransfersAttributed(accounts: seq<Account>, current: Position, targets: Position, ownerships: map<int, int>)
    requires Routable(accounts, Nets(accounts, current, targets), AllNeeds(accounts, current, targets), ownerships)
    requires CentPosition(current) && CentPosition(targets) && CentBalances(accounts, current, targets)
    requires forall i :: 0 <= i < |accounts| && Net(current, targets, accounts[i].id) < 0 ==>
               StakesTargeted(current, targets, accounts[i].id)
    ensures Attributed(PlanRows(accounts, Nets(accounts, current, targets), AllNeeds(accounts, current, targets), ownerships))
  {
    var nets, needs := Nets(accounts, current, targets), AllNeeds(accounts, current, targets);
    forall i | 0 <= i < |accounts| && nets[i] < 0 ensures SumSlots(needs[i], |needs[i]|) >= -nets[i] {
      NeedsCover(current, targets, accounts[i].id);
      NetIsExact(accounts, current, targets, i);
      hide AccountTotal, MemberNeeds;
    }
    PlanWalks(accounts, nets, needs, ownerships);
    DeficitsCovered(accounts, nets, needs, ownerships, |accounts|);
    hide Nets, AllNeeds, SurplusList, DeficitList, Finish, Walking, AllCovered;
    NeverUnattributed(Plan(accounts, nets, needs, ownerships));
  }
}
