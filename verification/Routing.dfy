/** The greedy transfer router (`_route_transfers`): a two-pointer walk over accounts holding more
    than their target and accounts holding less. */
module Routing {
  import opened Money
  import opened Wrappers

  datatype Slot = Slot(id: int, amount: int)

  datatype Reason = NextMonthReserve | PlannedAllocation | MemberResidual | PhysicalCash | Settlement

  /** An account below its target: how much it needs, and which members' targets lack how much there. */
  datatype Deficit = Deficit(account: int, amount: int, ownership: int, reason: Reason, holder: Option<int>, members: seq<Slot>)

  datatype Row = Row(from: int, to: int, member: Option<int>, ownership: int, amount: int, reason: Reason)

  datatype Walk = Walk(surplus: seq<Slot>, deficit: seq<Deficit>, si: nat, di: nat, rows: seq<Row>)

  // ---- One meeting of a source and a destination -----------------------------------------------

  function SumSlots(s: seq<Slot>, n: nat): int
    requires n <= |s|
  {
    if n == 0 then 0 else SumSlots(s, n - 1) + s[n - 1].amount
  }

  /** What is left of `amount` after serving the first k members. */
  function Remaining(amount: int, members: seq<Slot>, k: nat): int
    requires k <= |members|
  {
    Max(0, amount - SumSlots(members, k))
  }

  function Routed(amount: int, members: seq<Slot>, k: nat): int
    requires k < |members|
  {
    Min(Remaining(amount, members, k), members[k].amount)
  }

  /** The rows after serving the first k members. */
  function Emit(rows: seq<Row>, from: int, d: Deficit, amount: int, k: nat): seq<Row>
    requires k <= |d.members|
  {
    if k == 0 then rows else
    var before := Emit(rows, from, d, amount, k - 1);
    var routed := Routed(amount, d.members, k - 1);
    if routed > 0 then before + [Row(from, d.account, Some(d.members[k - 1].id), d.ownership, routed, d.reason)] else before
  }

  /** All rows of one meeting: what no member's target lacks goes out unattributed. */
  function EmitAll(rows: seq<Row>, from: int, d: Deficit, amount: int): seq<Row> {
    var n := |d.members|;
    var rest := Remaining(amount, d.members, n);
    var served := Emit(rows, from, d, amount, n);
    if rest > 0 then served + [Row(from, d.account, d.holder, d.ownership, rest, Settlement)] else served
  }

  function Served(amount: int, members: seq<Slot>): (s: seq<Slot>)
    ensures |s| == |members|
  {
    seq(|members|, k requires 0 <= k < |members| => Slot(members[k].id, members[k].amount - Routed(amount, members, k)))
  }

  predicate More(w: Walk) { w.si < |w.surplus| && w.di < |w.deficit| }

  function Meet(w: Walk): Walk
    requires More(w)
  {
    var source, d := w.surplus[w.si], w.deficit[w.di];
    var amount := Min(source.amount, d.amount);
    Walk(w.surplus[w.si := Slot(source.id, source.amount - amount)],
         w.deficit[w.di := d.(amount := d.amount - amount, members := Served(amount, d.members))],
         if source.amount == amount then w.si + 1 else w.si,
         if d.amount == amount then w.di + 1 else w.di,
         EmitAll(w.rows, source.id, d, amount))
  }

  function Finish(w: Walk): (f: Walk)
    requires w.si <= |w.surplus| && w.di <= |w.deficit|
    ensures !More(f)
    decreases |w.surplus| - w.si + |w.deficit| - w.di
  {
    if More(w) then
      var next := Meet(w);
      assert next.si > w.si || next.di > w.di;
      Finish(next)
    else w
  }

  function Start(surplus: seq<Slot>, deficit: seq<Deficit>): Walk { Walk(surplus, deficit, 0, 0, []) }

  /** The walk itself: the two pointers, the slots updated in place, the rows appended. */
  method Route(surplus: seq<Slot>, deficit: seq<Deficit>) returns (rows: seq<Row>)
    requires Needs(deficit)
    ensures rows == Finish(Start(surplus, deficit)).rows
  {
    var s, d, si, di := surplus, deficit, 0, 0;
    rows := [];
    while si < |s| && di < |d|
      invariant si <= |s| && di <= |d|
      invariant Finish(Walk(s, d, si, di, rows)) == Finish(Start(surplus, deficit))
      invariant Needs(d)
      decreases |s| - si + |d| - di
    {
      ghost var w := Walk(s, d, si, di, rows);
      var amount := Min(s[si].amount, d[di].amount);
      var members: seq<Slot>;
      ServedNeeds(amount, d[di].members);
      rows, members := Serve(rows, s[si].id, d[di], amount);
      s := s[si := Slot(s[si].id, s[si].amount - amount)];
      d := d[di := d[di].(amount := d[di].amount - amount, members := members)];
      if s[si].amount == 0 { si := si + 1; }
      if d[di].amount == 0 { di := di + 1; }
      hide EmitAll, Served;
      assert Walk(s, d, si, di, rows) == Meet(w);
    }
  }

  lemma ServedNeeds(amount: int, members: seq<Slot>)
    requires Needed(members)
    ensures Needed(Served(amount, members))
  {
  }

  /** One destination's members in order, each up to what its target lacks. */
  method Serve(rows: seq<Row>, from: int, d: Deficit, amount: int) returns (after: seq<Row>, members: seq<Slot>)
    requires Needed(d.members)
    ensures after == EmitAll(rows, from, d, amount) && members == Served(amount, d.members)
  {
    after, members := rows, d.members;
    var remaining := Max(0, amount);
    var k := 0;
    while k < |members| && remaining > 0
      invariant k <= |members| == |d.members|
      invariant remaining == Remaining(amount, d.members, k)
      invariant after == Emit(rows, from, d, amount, k)
      invariant forall i :: 0 <= i < k ==> members[i] == Served(amount, d.members)[i]
      invariant forall i :: k <= i < |members| ==> members[i] == d.members[i]
    {
      var need := members[k];
      if need.amount > 0 {
        var routed := Min(remaining, need.amount);
        after := after + [Row(from, d.account, Some(need.id), d.ownership, routed, d.reason)];
        members := members[k := Slot(need.id, need.amount - routed)];
        remaining := remaining - routed;
      }
      k := k + 1;
    }
    NothingLeft(rows, from, d, amount, k, |members|);
    assert members == Served(amount, d.members);
    if remaining > 0 {
      after := after + [Row(from, d.account, d.holder, d.ownership, remaining, Settlement)];
    }
  }

  /** Member needs are never negative. */
  ghost predicate Needed(members: seq<Slot>) { forall k :: 0 <= k < |members| ==> members[k].amount >= 0 }

  ghost predicate Needs(d: seq<Deficit>) { forall j :: 0 <= j < |d| ==> Needed(d[j].members) }

  /** Once nothing remains, the members left over get no row. */
  lemma {:induction false} NothingLeft(rows: seq<Row>, from: int, d: Deficit, amount: int, k: nat, n: nat)
    requires Needed(d.members) && k <= n <= |d.members|
    requires k < |d.members| ==> Remaining(amount, d.members, k) == 0
    ensures Emit(rows, from, d, amount, n) == Emit(rows, from, d, amount, k)
    ensures forall i :: k <= i < n ==> Routed(amount, d.members, i) == 0
    ensures k < n ==> Remaining(amount, d.members, n) == 0
  {
    if k < n { NothingLeft(rows, from, d, amount, k, n - 1); }
  }

  // ---- Measures of a list of rows --------------------------------------------------------------

  ghost function SumTo(rows: seq<Row>, f: Row -> int, n: nat): int
    requires n <= |rows|
  {
    if n == 0 then 0 else SumTo(rows, f, n - 1) + f(rows[n - 1])
  }

  ghost function Sum(rows: seq<Row>, f: Row -> int): int { SumTo(rows, f, |rows|) }

  lemma {:induction false} SumPrefix(rows: seq<Row>, last: Row, f: Row -> int, n: nat)
    requires n <= |rows|
    ensures SumTo(rows + [last], f, n) == SumTo(rows, f, n)
  {
    if n > 0 { SumPrefix(rows, last, f, n - 1); }
  }

  lemma SumAppend(rows: seq<Row>, last: Row, f: Row -> int)
    ensures Sum(rows + [last], f) == Sum(rows, f) + f(last)
  {
    SumPrefix(rows, last, f, |rows|);
  }

  /** Money the rows take out of an account. */
  ghost function OutOf(a: int): Row -> int { (r: Row) => if r.from == a then r.amount else 0 }

  /** Money the rows bring into an account. */
  ghost function InTo(a: int): Row -> int { (r: Row) => if r.to == a then r.amount else 0 }

  /** Money the rows bring into an account on behalf of a member's target. */
  ghost function ForMember(a: int, m: int): Row -> int {
    (r: Row) => if r.to == a && r.member == Some(m) && r.reason != Settlement then r.amount else 0
  }

  ghost function All(): Row -> int { (r: Row) => r.amount }

  // ---- One meeting -------------------------------------------------------------------------------

  lemma {:induction false} EmitFlow(rows: seq<Row>, from: int, d: Deficit, amount: int, k: nat, f: Row -> int, hit: bool)
    requires amount >= 0 && Needed(d.members) && k <= |d.members|
    requires forall r: Row :: r.from == from && r.to == d.account ==> f(r) == if hit then r.amount else 0
    ensures Sum(Emit(rows, from, d, amount, k), f)
            == Sum(rows, f) + if hit then amount - Remaining(amount, d.members, k) else 0
  {
    if k > 0 {
      EmitFlow(rows, from, d, amount, k - 1, f, hit);
      var routed := Routed(amount, d.members, k - 1);
      if routed > 0 {
        SumAppend(Emit(rows, from, d, amount, k - 1),
                  Row(from, d.account, Some(d.members[k - 1].id), d.ownership, routed, d.reason), f);
      }
    }
  }

  /** A meeting moves its whole amount from its source to its destination. */
  lemma EmitAllFlow(rows: seq<Row>, from: int, d: Deficit, amount: int, f: Row -> int, hit: bool)
    requires amount >= 0 && Needed(d.members)
    requires forall r: Row :: r.from == from && r.to == d.account ==> f(r) == if hit then r.amount else 0
    ensures Sum(EmitAll(rows, from, d, amount), f) == Sum(rows, f) + if hit then amount else 0
  {
    var n := |d.members|;
    EmitFlow(rows, from, d, amount, n, f, hit);
    var rest := Remaining(amount, d.members, n);
    if rest > 0 {
      SumAppend(Emit(rows, from, d, amount, n), Row(from, d.account, d.holder, d.ownership, rest, Settlement), f);
    }
  }

  /** What a member's target lacks at a destination. */
  function Need(members: seq<Slot>, m: int, n: nat): int
    requires n <= |members|
  {
    if n == 0 then 0 else Need(members, m, n - 1) + if members[n - 1].id == m then members[n - 1].amount else 0
  }

  lemma {:induction false} EmitForMember(rows: seq<Row>, from: int, d: Deficit, amount: int, k: nat, a: int, m: int)
    requires d.reason != Settlement && Needed(d.members) && k <= |d.members|
    ensures Sum(Emit(rows, from, d, amount, k), ForMember(a, m))
            == Sum(rows, ForMember(a, m))
               + if a == d.account then Need(d.members, m, k) - Need(Served(amount, d.members), m, k) else 0
  {
    if k > 0 {
      EmitForMember(rows, from, d, amount, k - 1, a, m);
      var routed := Routed(amount, d.members, k - 1);
      if routed > 0 {
        SumAppend(Emit(rows, from, d, amount, k - 1),
                  Row(from, d.account, Some(d.members[k - 1].id), d.ownership, routed, d.reason), ForMember(a, m));
      }
    }
  }

  lemma EmitAllForMember(rows: seq<Row>, from: int, d: Deficit, amount: int, a: int, m: int)
    requires d.reason != Settlement && Needed(d.members)
    ensures Sum(EmitAll(rows, from, d, amount), ForMember(a, m))
            == Sum(rows, ForMember(a, m))
               + if a == d.account then Need(d.members, m, |d.members|) - Need(Served(amount, d.members), m, |d.members|) else 0
  {
    var n := |d.members|;
    EmitForMember(rows, from, d, amount, n, a, m);
    var rest := Remaining(amount, d.members, n);
    if rest > 0 {
      SumAppend(Emit(rows, from, d, amount, n), Row(from, d.account, d.holder, d.ownership, rest, Settlement), ForMember(a, m));
    }
  }

  /** How many member needs are still open. */
  function Open(members: seq<Slot>, n: nat): nat
    requires n <= |members|
  {
    if n == 0 then 0 else Open(members, n - 1) + if members[n - 1].amount > 0 then 1 else 0
  }

  lemma {:induction false} EmitCount(rows: seq<Row>, from: int, d: Deficit, amount: int, k: nat)
    requires Needed(d.members) && k <= |d.members|
    ensures |Emit(rows, from, d, amount, k)| + Open(Served(amount, d.members), k)
            <= |rows| + Open(d.members, k) + if Remaining(amount, d.members, k) == 0 then 1 else 0
  {
    if k > 0 { EmitCount(rows, from, d, amount, k - 1); }
  }

  // ---- The walk ----------------------------------------------------------------------------------

  /** Slots behind the pointers are exhausted and those ahead are positive. */
  ghost predicate Walking(w: Walk) {
    && w.si <= |w.surplus| && w.di <= |w.deficit|
    && (forall i :: 0 <= i < |w.surplus| ==> if i < w.si then w.surplus[i].amount == 0 else w.surplus[i].amount > 0)
    && (forall j :: 0 <= j < |w.deficit| ==> if j < w.di then w.deficit[j].amount == 0 else w.deficit[j].amount > 0)
    && (forall j :: 0 <= j < |w.deficit| ==> Needed(w.deficit[j].members) && w.deficit[j].reason != Settlement)
  }

  lemma MeetWalking(w: Walk)
    requires Walking(w) && More(w)
    ensures Walking(Meet(w)) && (Meet(w).si > w.si || Meet(w).di > w.di)
  {
    hide EmitAll, Served;
    ServedNeeds(Min(w.surplus[w.si].amount, w.deficit[w.di].amount), w.deficit[w.di].members);
  }

  /** What a list of slots holds of an account. */
  function Held(s: seq<Slot>, a: int, n: nat): int
    requires n <= |s|
  {
    if n == 0 then 0 else Held(s, a, n - 1) + if s[n - 1].id == a then s[n - 1].amount else 0
  }

  /** What a list of deficits lacks on an account. */
  function Owed(d: seq<Deficit>, a: int, n: nat): int
    requires n <= |d|
  {
    if n == 0 then 0 else Owed(d, a, n - 1) + if d[n - 1].account == a then d[n - 1].amount else 0
  }

  /** What a member's targets lack on an account. */
  function OwedTo(d: seq<Deficit>, a: int, m: int, n: nat): int
    requires n <= |d|
  {
    if n == 0 then 0 else
    OwedTo(d, a, m, n - 1) + if d[n - 1].account == a then Need(d[n - 1].members, m, |d[n - 1].members|) else 0
  }

  lemma {:induction false} HeldUpdated(s: seq<Slot>, i: nat, slot: Slot, a: int, n: nat)
    requires i < |s| && n <= |s| && slot.id == s[i].id
    ensures Held(s[i := slot], a, n) == Held(s, a, n) + if i < n && a == slot.id then slot.amount - s[i].amount else 0
  {
    if n > 0 { HeldUpdated(s, i, slot, a, n - 1); }
  }

  lemma {:induction false} OwedUpdated(s: seq<Deficit>, i: nat, d: Deficit, a: int, n: nat)
    requires i < |s| && n <= |s| && d.account == s[i].account
    ensures Owed(s[i := d], a, n) == Owed(s, a, n) + if i < n && a == d.account then d.amount - s[i].amount else 0
  {
    if n > 0 { OwedUpdated(s, i, d, a, n - 1); }
  }

  lemma {:induction false} OwedToUpdated(s: seq<Deficit>, i: nat, d: Deficit, a: int, m: int, n: nat)
    requires i < |s| && n <= |s| && d.account == s[i].account
    ensures OwedTo(s[i := d], a, m, n)
            == OwedTo(s, a, m, n)
               + if i < n && a == d.account then Need(d.members, m, |d.members|) - Need(s[i].members, m, |s[i].members|) else 0
  {
    if n > 0 { OwedToUpdated(s, i, d, a, m, n - 1); }
  }

  lemma MeetFlows(w: Walk, a: int)
    requires Walking(w) && More(w)
    ensures var next := Meet(w);
            && Sum(next.rows, OutOf(a)) + Held(next.surplus, a, |w.surplus|) == Sum(w.rows, OutOf(a)) + Held(w.surplus, a, |w.surplus|)
            && Sum(next.rows, InTo(a)) + Owed(next.deficit, a, |w.deficit|) == Sum(w.rows, InTo(a)) + Owed(w.deficit, a, |w.deficit|)
  {
    var source, d := w.surplus[w.si], w.deficit[w.di];
    var amount := Min(source.amount, d.amount);
    EmitAllFlow(w.rows, source.id, d, amount, OutOf(a), a == source.id);
    EmitAllFlow(w.rows, source.id, d, amount, InTo(a), a == d.account);
    HeldUpdated(w.surplus, w.si, Slot(source.id, source.amount - amount), a, |w.surplus|);
    OwedUpdated(w.deficit, w.di, d.(amount := d.amount - amount, members := Served(amount, d.members)), a, |w.deficit|);
    hide EmitAll, Served, Walking, Held, Owed, Sum;
  }

  /** A source gives out exactly what it no longer holds in surplus, and a destination receives exactly
      what it no longer lacks. */
  lemma {:induction false} AccountFlows(w: Walk, a: int)
    requires Walking(w)
    ensures var f := Finish(w);
            && Sum(f.rows, OutOf(a)) + Held(f.surplus, a, |f.surplus|) == Sum(w.rows, OutOf(a)) + Held(w.surplus, a, |w.surplus|)
            && Sum(f.rows, InTo(a)) + Owed(f.deficit, a, |f.deficit|) == Sum(w.rows, InTo(a)) + Owed(w.deficit, a, |w.deficit|)
    decreases |w.surplus| - w.si + |w.deficit| - w.di
  {
    if More(w) {
      MeetFlows(w, a);
      MeetWalking(w);
      assert |Meet(w).surplus| == |w.surplus| && |Meet(w).deficit| == |w.deficit|;
      hide Meet, Walking, Held, Owed, Sum;
      AccountFlows(Meet(w), a);
    }
  }

  /** What reaches a destination on behalf of a member is what that member's target no longer lacks. */
  lemma {:induction false} MemberFlow(w: Walk, a: int, m: int)
    requires Walking(w)
    ensures var f := Finish(w);
            Sum(f.rows, ForMember(a, m)) + OwedTo(f.deficit, a, m, |f.deficit|)
            == Sum(w.rows, ForMember(a, m)) + OwedTo(w.deficit, a, m, |w.deficit|)
    decreases |w.surplus| - w.si + |w.deficit| - w.di
  {
    if More(w) {
      var source, d := w.surplus[w.si], w.deficit[w.di];
      var amount := Min(source.amount, d.amount);
      EmitAllForMember(w.rows, source.id, d, amount, a, m);
      OwedToUpdated(w.deficit, w.di, d.(amount := d.amount - amount, members := Served(amount, d.members)), a, m, |w.deficit|);
      MeetWalking(w);
      hide EmitAll, Served, Need, OwedTo, Walking, Sum;
      MemberFlow(Meet(w), a, m);
    }
  }

  // ---- Rows ----------------------------------------------------------------------------------------

  ghost predicate NeverFrom(rows: seq<Row>, a: int) { forall i :: 0 <= i < |rows| ==> rows[i].from != a }

  ghost predicate NeverTo(rows: seq<Row>, a: int) { forall i :: 0 <= i < |rows| ==> rows[i].to != a }

  ghost predicate Positive(rows: seq<Row>) { forall i :: 0 <= i < |rows| ==> rows[i].amount > 0 }

  lemma {:induction false} EmitPositive(rows: seq<Row>, from: int, d: Deficit, amount: int, k: nat)
    requires Positive(rows) && k <= |d.members|
    ensures Positive(Emit(rows, from, d, amount, k))
  {
    if k > 0 { EmitPositive(rows, from, d, amount, k - 1); }
  }

  /** Every row moves a positive amount. */
  lemma {:induction false} RowsPositive(w: Walk)
    requires w.si <= |w.surplus| && w.di <= |w.deficit| && Positive(w.rows)
    ensures Positive(Finish(w).rows)
    decreases |w.surplus| - w.si + |w.deficit| - w.di
  {
    if More(w) {
      var source, d := w.surplus[w.si], w.deficit[w.di];
      EmitPositive(w.rows, source.id, d, Min(source.amount, d.amount), |d.members|);
      assert Meet(w).si > w.si || Meet(w).di > w.di;
      hide Emit, Served;
      assert Positive(Meet(w).rows);
      hide Meet, Positive;
      RowsPositive(Meet(w));
    }
  }

  /** An account no positive row takes from, or brings to, is in no row on that side. */
  lemma {:induction false} NothingMoved(rows: seq<Row>, a: int, n: nat)
    requires Positive(rows) && n <= |rows|
    ensures SumTo(rows, OutOf(a), n) >= 0 && SumTo(rows, InTo(a), n) >= 0
    ensures SumTo(rows, OutOf(a), n) == 0 ==> forall i :: 0 <= i < n ==> rows[i].from != a
    ensures SumTo(rows, InTo(a), n) == 0 ==> forall i :: 0 <= i < n ==> rows[i].to != a
  {
    if n > 0 { NothingMoved(rows, a, n - 1); }
  }

  function SumDeficits(d: seq<Deficit>, n: nat): int
    requires n <= |d|
  {
    if n == 0 then 0 else SumDeficits(d, n - 1) + d[n - 1].amount
  }

  lemma {:induction false} SlotsUpdated(s: seq<Slot>, i: nat, slot: Slot, n: nat)
    requires i < |s| && n <= |s|
    ensures SumSlots(s[i := slot], n) == SumSlots(s, n) + if i < n then slot.amount - s[i].amount else 0
  {
    if n > 0 { SlotsUpdated(s, i, slot, n - 1); }
  }

  lemma {:induction false} DeficitsUpdated(s: seq<Deficit>, i: nat, d: Deficit, n: nat)
    requires i < |s| && n <= |s|
    ensures SumDeficits(s[i := d], n) == SumDeficits(s, n) + if i < n then d.amount - s[i].amount else 0
  {
    if n > 0 { DeficitsUpdated(s, i, d, n - 1); }
  }

  lemma MeetTotals(w: Walk)
    requires Walking(w) && More(w)
    ensures var next := Meet(w);
            && Sum(next.rows, All()) + SumSlots(next.surplus, |w.surplus|) == Sum(w.rows, All()) + SumSlots(w.surplus, |w.surplus|)
            && Sum(next.rows, All()) + SumDeficits(next.deficit, |w.deficit|) == Sum(w.rows, All()) + SumDeficits(w.deficit, |w.deficit|)
  {
    var source, d := w.surplus[w.si], w.deficit[w.di];
    var amount := Min(source.amount, d.amount);
    EmitAllFlow(w.rows, source.id, d, amount, All(), true);
    SlotsUpdated(w.surplus, w.si, Slot(source.id, source.amount - amount), |w.surplus|);
    DeficitsUpdated(w.deficit, w.di, d.(amount := d.amount - amount, members := Served(amount, d.members)), |w.deficit|);
    hide EmitAll, Served, Walking, SumSlots, SumDeficits, Sum;
  }

  /** Everything the rows move leaves the surpluses and fills the deficits. */
  lemma {:induction false} TotalFlow(w: Walk)
    requires Walking(w)
    ensures var f := Finish(w);
            && Walking(f)
            && Sum(f.rows, All()) + SumSlots(f.surplus, |f.surplus|) == Sum(w.rows, All()) + SumSlots(w.surplus, |w.surplus|)
            && Sum(f.rows, All()) + SumDeficits(f.deficit, |f.deficit|) == Sum(w.rows, All()) + SumDeficits(w.deficit, |w.deficit|)
    decreases |w.surplus| - w.si + |w.deficit| - w.di
  {
    if More(w) {
      MeetTotals(w);
      MeetWalking(w);
      assert |Meet(w).surplus| == |w.surplus| && |Meet(w).deficit| == |w.deficit|;
      hide Meet, Walking, SumSlots, SumDeficits, Sum;
      TotalFlow(Meet(w));
    }
  }

  lemma {:induction false} SlotsOfNone(s: seq<Slot>, n: nat)
    requires n <= |s| && forall i :: 0 <= i < |s| ==> s[i].amount >= 0
    ensures SumSlots(s, n) >= 0
    ensures SumSlots(s, n) == 0 <==> forall i :: 0 <= i < n ==> s[i].amount == 0
  {
    if n > 0 { SlotsOfNone(s, n - 1); }
  }

  lemma {:induction false} DeficitsOfNone(s: seq<Deficit>, n: nat)
    requires n <= |s| && forall i :: 0 <= i < |s| ==> s[i].amount >= 0
    ensures SumDeficits(s, n) >= 0
    ensures SumDeficits(s, n) == 0 <==> forall i :: 0 <= i < n ==> s[i].amount == 0
  {
    if n > 0 { DeficitsOfNone(s, n - 1); }
  }

  /** The router moves exactly the smaller of the total surplus and the total deficit. */
  lemma MovesTheMinimum(w: Walk)
    requires Walking(w) && w.rows == []
    ensures Sum(Finish(w).rows, All()) == Min(SumSlots(w.surplus, |w.surplus|), SumDeficits(w.deficit, |w.deficit|))
  {
    var f := Finish(w);
    TotalFlow(w);
    SlotsOfNone(f.surplus, |f.surplus|);
    DeficitsOfNone(f.deficit, |f.deficit|);
    hide Finish, SumSlots, SumDeficits;
  }

  lemma {:induction false} HeldIsNatural(s: seq<Slot>, a: int, n: nat)
    requires n <= |s| && forall i :: 0 <= i < |s| ==> s[i].amount >= 0
    ensures Held(s, a, n) >= 0
    ensures Held(s, a, n) == 0 <==> forall i :: 0 <= i < n && s[i].id == a ==> s[i].amount == 0
  {
    if n > 0 { HeldIsNatural(s, a, n - 1); }
  }

  lemma {:induction false} OwedIsNatural(d: seq<Deficit>, a: int, n: nat)
    requires n <= |d| && forall i :: 0 <= i < |d| ==> d[i].amount >= 0
    ensures Owed(d, a, n) >= 0
    ensures Owed(d, a, n) == 0 <==> forall i :: 0 <= i < n && d[i].account == a ==> d[i].amount == 0
  {
    if n > 0 { OwedIsNatural(d, a, n - 1); }
  }

  /** No source is overdrawn and no destination overfilled. */
  lemma NeverOverdrawn(w: Walk, a: int)
    requires Walking(w) && w.rows == []
    ensures Sum(Finish(w).rows, OutOf(a)) <= Held(w.surplus, a, |w.surplus|)
    ensures Sum(Finish(w).rows, InTo(a)) <= Owed(w.deficit, a, |w.deficit|)
  {
    var f := Finish(w);
    AccountFlows(w, a);
    TotalFlow(w);
    HeldIsNatural(f.surplus, a, |f.surplus|);
    OwedIsNatural(f.deficit, a, |f.deficit|);
    hide Finish, Held, Owed, SumSlots, SumDeficits;
  }

  lemma {:induction false} HeldWithin(s: seq<Slot>, a: int, n: nat)
    requires n <= |s| && forall i :: 0 <= i < |s| ==> s[i].amount >= 0
    ensures 0 <= Held(s, a, n) <= SumSlots(s, n)
  {
    if n > 0 { HeldWithin(s, a, n - 1); }
  }

  lemma {:induction false} OwedWithin(d: seq<Deficit>, a: int, n: nat)
    requires n <= |d| && forall i :: 0 <= i < |d| ==> d[i].amount >= 0
    ensures 0 <= Owed(d, a, n) <= SumDeficits(d, n)
  {
    if n > 0 { OwedWithin(d, a, n - 1); }
  }

  /** When the totals differ, no account is left with more than the difference, on the longer side only. */
  lemma LeftBehind(w: Walk, a: int)
    requires Walking(w) && w.rows == []
    ensures var excess := SumSlots(w.surplus, |w.surplus|) - SumDeficits(w.deficit, |w.deficit|);
            && 0 <= Held(w.surplus, a, |w.surplus|) - Sum(Finish(w).rows, OutOf(a)) <= Max(0, excess)
            && 0 <= Owed(w.deficit, a, |w.deficit|) - Sum(Finish(w).rows, InTo(a)) <= Max(0, -excess)
  {
    hide *;
    LeftIsWhatRemains(w, a);
    MovesTheMinimum(w);
    var out, into := SumSlots(w.surplus, |w.surplus|), SumDeficits(w.deficit, |w.deficit|);
    BeyondTheMinimum(out, into);
    assert -(out - into) == into - out;
  }

  lemma BeyondTheMinimum(x: int, y: int)
    ensures x - Min(x, y) == Max(0, x - y) && y - Min(x, y) == Max(0, y - x)
  {
  }

  lemma LeftIsWhatRemains(w: Walk, a: int)
    requires Walking(w) && w.rows == []
    ensures var f := Finish(w);
            var moved := Sum(f.rows, All());
            && 0 <= Held(w.surplus, a, |w.surplus|) - Sum(f.rows, OutOf(a)) <= SumSlots(w.surplus, |w.surplus|) - moved
            && 0 <= Owed(w.deficit, a, |w.deficit|) - Sum(f.rows, InTo(a)) <= SumDeficits(w.deficit, |w.deficit|) - moved
  {
    var f := Finish(w);
    TotalFlow(w);
    AccountFlows(w, a);
    assert Sum(w.rows, All()) == 0 && Sum(w.rows, OutOf(a)) == 0 && Sum(w.rows, InTo(a)) == 0;
    hide Finish, Held, Owed, SumSlots, SumDeficits, Sum;
    HeldWithin(f.surplus, a, |f.surplus|);
    OwedWithin(f.deficit, a, |f.deficit|);
    hide Walking;
  }

  /** Every source is drained and every destination filled. */
  ghost predicate Settled(w: Walk, rows: seq<Row>) {
    forall a :: Sum(rows, OutOf(a)) == Held(w.surplus, a, |w.surplus|) && Sum(rows, InTo(a)) == Owed(w.deficit, a, |w.deficit|)
  }

  /** Nothing is left anywhere. */
  ghost predicate Exhausted(w: Walk) {
    forall a :: Held(w.surplus, a, |w.surplus|) == 0 && Owed(w.deficit, a, |w.deficit|) == 0
  }

  lemma ExhaustedMeansZero(w: Walk)
    requires Walking(w)
    ensures Exhausted(w) <==> SumSlots(w.surplus, |w.surplus|) == 0 && SumDeficits(w.deficit, |w.deficit|) == 0
  {
    SlotsOfNone(w.surplus, |w.surplus|);
    DeficitsOfNone(w.deficit, |w.deficit|);
    forall a
      ensures Held(w.surplus, a, |w.surplus|) == 0 <==> forall i :: 0 <= i < |w.surplus| && w.surplus[i].id == a ==> w.surplus[i].amount == 0
      ensures Owed(w.deficit, a, |w.deficit|) == 0 <==> forall i :: 0 <= i < |w.deficit| && w.deficit[i].account == a ==> w.deficit[i].amount == 0
    {
      HeldIsNatural(w.surplus, a, |w.surplus|);
      OwedIsNatural(w.deficit, a, |w.deficit|);
    }
    hide SumSlots, SumDeficits, Held, Owed, Walking;
    if Exhausted(w) {
      assert forall i :: 0 <= i < |w.surplus| ==> Held(w.surplus, w.surplus[i].id, |w.surplus|) == 0;
      assert forall i :: 0 <= i < |w.deficit| ==> Owed(w.deficit, w.deficit[i].account, |w.deficit|) == 0;
    }
  }

  /** The walk drains every source and fills every destination exactly when the totals agree. */
  lemma DrainsAndFills(w: Walk)
    requires Walking(w) && w.rows == []
    ensures Settled(w, Finish(w).rows) <==> SumSlots(w.surplus, |w.surplus|) == SumDeficits(w.deficit, |w.deficit|)
  {
    var f := Finish(w);
    TotalFlow(w);
    SlotsOfNone(f.surplus, |f.surplus|);
    DeficitsOfNone(f.deficit, |f.deficit|);
    ExhaustedMeansZero(f);
    forall a
      ensures Sum(f.rows, OutOf(a)) + Held(f.surplus, a, |f.surplus|) == Held(w.surplus, a, |w.surplus|)
      ensures Sum(f.rows, InTo(a)) + Owed(f.deficit, a, |f.deficit|) == Owed(w.deficit, a, |w.deficit|)
    {
      AccountFlows(w, a);
    }
    hide Finish, SumSlots, SumDeficits, Sum, Held, Owed, Walking;
  }

  lemma {:induction false} SameSizes(w: Walk)
    requires w.si <= |w.surplus| && w.di <= |w.deficit|
    ensures |Finish(w).surplus| == |w.surplus| && |Finish(w).deficit| == |w.deficit|
    decreases |w.surplus| - w.si + |w.deficit| - w.di
  {
    if More(w) {
      assert Meet(w).si > w.si || Meet(w).di > w.di;
      SameSizes(Meet(w));
    }
  }

  /** No member receives at a destination more than its target lacks there. */
  lemma MembersNotOverfilled(w: Walk, a: int, m: int)
    requires Walking(w) && w.rows == []
    ensures Sum(Finish(w).rows, ForMember(a, m)) <= OwedTo(w.deficit, a, m, |w.deficit|)
  {
    MemberFlow(w, a, m);
    TotalFlow(w);
    var f := Finish(w);
    OwedToIsNatural(f.deficit, a, m, |f.deficit|);
    hide Finish, OwedTo, SumSlots, SumDeficits;
  }

  lemma {:induction false} OwedToIsNatural(d: seq<Deficit>, a: int, m: int, n: nat)
    requires n <= |d| && forall j :: 0 <= j < |d| ==> Needed(d[j].members)
    ensures OwedTo(d, a, m, n) >= 0
  {
    if n > 0 {
      OwedToIsNatural(d, a, m, n - 1);
      NeedIsNatural(d[n - 1].members, m, |d[n - 1].members|);
    }
  }

  lemma {:induction false} NeedIsNatural(members: seq<Slot>, m: int, n: nat)
    requires Needed(members) && n <= |members|
    ensures Need(members, m, n) >= 0
  {
    if n > 0 { NeedIsNatural(members, m, n - 1); }
  }

  // ---- How many rows -----------------------------------------------------------------------------

  function OpenNeeds(d: seq<Deficit>, n: nat): nat
    requires n <= |d|
  {
    if n == 0 then 0 else OpenNeeds(d, n - 1) + Open(d[n - 1].members, |d[n - 1].members|)
  }

  lemma {:induction false} OpenNeedsUpdated(s: seq<Deficit>, i: nat, d: Deficit, n: nat)
    requires i < |s| && n <= |s|
    ensures OpenNeeds(s[i := d], n)
            == OpenNeeds(s, n) + if i < n then Open(d.members, |d.members|) - Open(s[i].members, |s[i].members|) else 0
  {
    if n > 0 { OpenNeedsUpdated(s, i, d, n - 1); }
  }

  lemma MeetCount(w: Walk)
    requires Walking(w) && More(w)
    ensures |Meet(w).rows| + OpenNeeds(Meet(w).deficit, |w.deficit|) <= |w.rows| + OpenNeeds(w.deficit, |w.deficit|) + 1
  {
    var source, d := w.surplus[w.si], w.deficit[w.di];
    var amount := Min(source.amount, d.amount);
    EmitCount(w.rows, source.id, d, amount, |d.members|);
    OpenNeedsUpdated(w.deficit, w.di, d.(amount := d.amount - amount, members := Served(amount, d.members)), |w.deficit|);
    hide Emit, Served, Open, OpenNeeds;
  }

  /** Each meeting exhausts a source or a destination and closes every member need it serves but one. */
  lemma {:induction false} RowCount(w: Walk)
    requires Walking(w) && More(w)
    ensures |Finish(w).rows|
            <= |w.rows| + OpenNeeds(w.deficit, |w.deficit|) + (|w.surplus| - w.si) + (|w.deficit| - w.di) - 1
    decreases |w.surplus| - w.si + |w.deficit| - w.di
  {
    MeetWalking(w);
    MeetCount(w);
    var next := Meet(w);
    SameSizes(next);
    hide Meet, Walking, OpenNeeds;
    if More(next) { RowCount(next); }
  }

  // ---- The unattributed row ----------------------------------------------------------------------

  ghost predicate Attributed(rows: seq<Row>) { forall i :: 0 <= i < |rows| ==> rows[i].reason != Settlement }

  /** The members' targets lack at least what the destination lacks. */
  ghost predicate Covered(d: Deficit) { SumSlots(d.members, |d.members|) >= d.amount }

  ghost predicate AllCovered(d: seq<Deficit>) { forall j :: 0 <= j < |d| ==> Covered(d[j]) }

  lemma {:induction false} ServedSum(amount: int, members: seq<Slot>, k: nat)
    requires amount >= 0 && Needed(members) && k <= |members|
    ensures SumSlots(Served(amount, members), k) == SumSlots(members, k) - (amount - Remaining(amount, members, k))
  {
    if k > 0 { ServedSum(amount, members, k - 1); }
  }

  lemma {:induction false} EmitAttributed(rows: seq<Row>, from: int, d: Deficit, amount: int, k: nat)
    requires Attributed(rows) && d.reason != Settlement && k <= |d.members|
    ensures Attributed(Emit(rows, from, d, amount, k))
  {
    if k > 0 { EmitAttributed(rows, from, d, amount, k - 1); }
  }

  lemma MeetAttributed(w: Walk)
    requires Walking(w) && More(w) && Attributed(w.rows)
    requires AllCovered(w.deficit)
    ensures Attributed(Meet(w).rows) && AllCovered(Meet(w).deficit)
  {
    var source, d := w.surplus[w.si], w.deficit[w.di];
    var amount := Min(source.amount, d.amount);
    assert Covered(d);
    EmitAttributed(w.rows, source.id, d, amount, |d.members|);
    ServedSum(amount, d.members, |d.members|);
    hide Emit, Served, SumSlots;
  }

  /** When every destination is covered by its members' targets, no row is left unattributed. */
  lemma {:induction false} NeverUnattributed(w: Walk)
    requires Walking(w) && Attributed(w.rows)
    requires AllCovered(w.deficit)
    ensures Attributed(Finish(w).rows)
    decreases |w.surplus| - w.si + |w.deficit| - w.di
  {
    if More(w) {
      MeetWalking(w);
      MeetAttributed(w);
      hide Meet, Walking, AllCovered, Attributed;
      NeverUnattributed(Meet(w));
    }
  }

  // ---- What a row says ----------------------------------------------------------------------------

  /** A row names a destination with its owner and reason and a member whose target lacks something there, or, for
      what no member lacks, the holder of the destination. */
  ghost predicate RowSays(row: Row, deficits: seq<Deficit>) {
    exists j :: 0 <= j < |deficits| && Says(row, deficits[j])
  }

  ghost predicate Says(row: Row, d: Deficit) {
    && row.to == d.account && row.ownership == d.ownership
    && ((row.reason == d.reason && row.member.Some? && exists k :: 0 <= k < |d.members| && d.members[k].id == row.member.value)
        || (row.reason == Settlement && row.member == d.holder))
  }

  ghost predicate RowsSay(rows: seq<Row>, deficits: seq<Deficit>) { forall i :: 0 <= i < |rows| ==> RowSays(rows[i], deficits) }

  /** The same destinations, whatever amounts are left. */
  predicate SameLabels(d: Deficit, e: Deficit) {
    && d.account == e.account && d.ownership == e.ownership && d.reason == e.reason && d.holder == e.holder
    && |d.members| == |e.members| && forall k :: 0 <= k < |d.members| ==> d.members[k].id == e.members[k].id
  }

  predicate AllSame(a: seq<Deficit>, b: seq<Deficit>) { |a| == |b| && forall j :: 0 <= j < |a| ==> SameLabels(a[j], b[j]) }

  lemma {:induction false} EmitSays(rows: seq<Row>, from: int, d: Deficit, amount: int, deficits: seq<Deficit>, j: nat, k: nat)
    requires RowsSay(rows, deficits) && j < |deficits| && SameLabels(d, deficits[j]) && k <= |d.members|
    ensures RowsSay(Emit(rows, from, d, amount, k), deficits)
  {
    if k > 0 {
      EmitSays(rows, from, d, amount, deficits, j, k - 1);
      var routed := Routed(amount, d.members, k - 1);
      var row := Row(from, d.account, Some(d.members[k - 1].id), d.ownership, routed, d.reason);
      assert deficits[j].members[k - 1].id == row.member.value;
      assert Says(row, deficits[j]);
      hide Routed, Says;
    }
  }

  lemma MeetSays(w: Walk, deficits: seq<Deficit>)
    requires More(w) && RowsSay(w.rows, deficits) && AllSame(w.deficit, deficits)
    ensures RowsSay(Meet(w).rows, deficits) && AllSame(Meet(w).deficit, deficits)
  {
    var source, d := w.surplus[w.si], w.deficit[w.di];
    var amount := Min(source.amount, d.amount);
    var n := |d.members|;
    EmitSays(w.rows, source.id, d, amount, deficits, w.di, n);
    var last := Row(source.id, d.account, d.holder, d.ownership, Remaining(amount, d.members, n), Settlement);
    assert Says(last, deficits[w.di]);
    hide Emit, Remaining, Routed, Says;
  }

  /** Every row of a walk says what the destinations it started with say. */
  lemma {:induction false} FinishSays(w: Walk, deficits: seq<Deficit>)
    requires w.si <= |w.surplus| && w.di <= |w.deficit| && RowsSay(w.rows, deficits) && AllSame(w.deficit, deficits)
    ensures RowsSay(Finish(w).rows, deficits)
    decreases |w.surplus| - w.si + |w.deficit| - w.di
  {
    if More(w) {
      MeetSays(w, deficits);
      assert Meet(w).si > w.si || Meet(w).di > w.di;
      hide Meet, RowsSay, AllSame;
      FinishSays(Meet(w), deficits);
    }
  }
}
