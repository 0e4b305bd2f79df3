/** Accumulating shares into positions, and the opening position of a close
    (`_opening_position`, `_capture_account_opening`). */
module Positions {
  import opened Money
  import opened Wrappers
  import opened FiniteSums
  import opened Allocation

  function AddShares(p: Position, account: int, s: seq<Share>, n: nat): Position
    requires n <= |s|
  {
    if n == 0 then p else Plus(AddShares(p, account, s, n - 1), (account, s[n - 1].member), s[n - 1].amount)
  }

  function AddMembers(t: map<int, int>, s: seq<Share>, n: nat): map<int, int>
    requires n <= |s|
  {
    if n == 0 then t else Plus(AddMembers(t, s, n - 1), s[n - 1].member, s[n - 1].amount)
  }

  lemma {:induction false} AddSharesAccount(p: Position, account: int, s: seq<Share>, n: nat, a: int)
    requires n <= |s|
    ensures AccountTotal(AddShares(p, account, s, n), a) == AccountTotal(p, a) + if a == account then SumTo(s, n) else 0
  {
    if n > 0 {
      AddSharesAccount(p, account, s, n - 1, a);
      AccountTotalPlus(AddShares(p, account, s, n - 1), (account, s[n - 1].member), s[n - 1].amount, a);
    }
  }

  lemma {:induction false} AddSharesMember(p: Position, account: int, s: seq<Share>, n: nat, m: int)
    requires n <= |s|
    ensures MemberTotal(AddShares(p, account, s, n), m) == MemberTotal(p, m) + ShareOfTo(s, m, n)
  {
    if n > 0 {
      AddSharesMember(p, account, s, n - 1, m);
      MemberTotalPlus(AddShares(p, account, s, n - 1), (account, s[n - 1].member), s[n - 1].amount, m);
    }
  }

  lemma {:induction false} AddMembersGet(t: map<int, int>, s: seq<Share>, n: nat, m: int)
    requires n <= |s|
    ensures Get(AddMembers(t, s, n), m) == Get(t, m) + ShareOfTo(s, m, n)
  {
    if n > 0 { AddMembersGet(t, s, n - 1, m); }
  }

  lemma {:induction false} AddMembersTotal(t: map<int, int>, s: seq<Share>, n: nat)
    requires n <= |s|
    ensures Total(AddMembers(t, s, n)) == Total(t) + SumTo(s, n)
  {
    if n > 0 {
      AddMembersTotal(t, s, n - 1);
      TotalPlus(AddMembers(t, s, n - 1), s[n - 1].member, s[n - 1].amount);
    }
  }

  lemma {:induction false} AddSharesTotal(p: Position, account: int, s: seq<Share>, n: nat)
    requires n <= |s|
    ensures Total(AddShares(p, account, s, n)) == Total(p) + SumTo(s, n)
  {
    if n > 0 {
      AddSharesTotal(p, account, s, n - 1);
      TotalPlus(AddShares(p, account, s, n - 1), (account, s[n - 1].member), s[n - 1].amount);
    }
  }

  // ---- Re-opening a frozen account ------------------------------------------------------------

  /** What a snapshot keeps of one account. */
  datatype FrozenAccount = FrozenAccount(account: int, closing: seq<Share>, observed: Option<int>)

  /** Position of the greatest member id. */
  function MaxMember(s: seq<Share>, n: nat): (i: nat)
    requires 0 < n <= |s|
    ensures i < n && forall j :: 0 <= j < n ==> s[j].member <= s[i].member
  {
    if n == 1 then 0 else
    var best := MaxMember(s, n - 1);
    if s[n - 1].member > s[best].member then n - 1 else best
  }

  function Residue(row: FrozenAccount): int
    requires row.observed.Some?
  {
    row.observed.value - SumShares(row.closing)
  }

  /** The shares a close re-opens with: a residue below one cent per member goes to the last member. */
  function Reopened(row: FrozenAccount): (s: seq<Share>)
    ensures |s| == |row.closing|
  {
    var n := |row.closing|;
    if n > 0 && row.observed.Some? && Abs(Residue(row)) < CENT * n then
      var last := MaxMember(row.closing, n);
      row.closing[last := row.closing[last].(amount := row.closing[last].amount + Residue(row))]
    else row.closing
  }

  lemma {:induction false} SumAfterUpdate(s: seq<Share>, i: nat, share: Share, n: nat)
    requires i < |s| && n <= |s|
    ensures SumTo(s[i := share], n) == SumTo(s, n) + if i < n then share.amount - s[i].amount else 0
  {
    if n > 0 { SumAfterUpdate(s, i, share, n - 1); }
  }

  lemma ReopenedSum(row: FrozenAccount)
    requires row.closing != [] && row.observed.Some?
    ensures SumShares(Reopened(row)) ==
            if Abs(Residue(row)) < CENT * |row.closing| then row.observed.value else SumShares(row.closing)
  {
    var last := MaxMember(row.closing, |row.closing|);
    SumAfterUpdate(row.closing, last, row.closing[last].(amount := row.closing[last].amount + Residue(row)), |row.closing|);
  }

  /** A residue below a cent per member is added to the share of the greatest member; every other share, and every
      share otherwise, re-opens as it was stored. */
  lemma ReopenedShares(row: FrozenAccount, i: nat)
    requires i < |row.closing| && forall j, k :: 0 <= j < k < |row.closing| ==> row.closing[j].member != row.closing[k].member
    ensures var share := Reopened(row)[i];
            && share.member == row.closing[i].member
            && share.amount == row.closing[i].amount
                 + if row.observed.Some? && Abs(row.observed.value - SumShares(row.closing)) < CENT * |row.closing|
                      && (forall j :: 0 <= j < |row.closing| ==> row.closing[j].member <= row.closing[i].member)
                   then row.observed.value - SumShares(row.closing) else 0
  {
    var last := MaxMember(row.closing, |row.closing|);
    assert i != last ==> row.closing[last].member != row.closing[i].member;
    hide SumTo;
  }

  /** Each stored row may have been rounded on its own (snapshots frozen before the last row absorbed
      the rounding): the rows then drift from the account total by half a cent each. */
  ghost predicate RowsOf(rows: seq<Share>, amounts: seq<Share>) {
    && |rows| == |amounts|
    && (rows == MemberRows(amounts) || forall i :: 0 <= i < |rows| ==> rows[i].amount == ToCents(amounts[i].amount))
  }

  lemma {:induction false} RoundedRowsDrift(rows: seq<Share>, amounts: seq<Share>, n: nat)
    requires |rows| == |amounts| && n <= |rows|
    requires forall i :: 0 <= i < |rows| ==> rows[i].amount == ToCents(amounts[i].amount)
    ensures 2 * Abs(SumTo(rows, n) - SumTo(amounts, n)) <= n * CENT && IsCents(SumTo(rows, n))
  {
    if n > 0 {
      RoundedRowsDrift(rows, amounts, n - 1);
      hide RoundHalfUp, IsCents;
      var own := ToCents(amounts[n - 1].amount);
      hide ToCents;
      CentsAdd(SumTo(rows, n - 1), own);
    }
  }

  /** A READY account reconciles: its observed balance rounds to the expected one. */
  ghost predicate Reconciled(amounts: seq<Share>, observed: int) { ToCents(observed - SumShares(amounts)) == 0 }

  lemma ReconciledIsClose(amounts: seq<Share>, observed: int)
    ensures Reconciled(amounts, observed) <==> 2 * Abs(observed - SumShares(amounts)) < CENT
  {
    RoundHalfUpIsNearest(observed - SumShares(amounts), CENT, 0);
  }

  lemma RowsDrift(rows: seq<Share>, amounts: seq<Share>)
    requires amounts != [] && RowsOf(rows, amounts)
    ensures IsCents(SumShares(rows)) && 2 * Abs(SumShares(rows) - SumShares(amounts)) <= |rows| * CENT
    ensures |amounts| == 1 ==> SumShares(rows) == ToCents(SumShares(amounts))
  {
    MemberRowsSum(amounts);
    if rows != MemberRows(amounts) {
      RoundedRowsDrift(rows, amounts, |rows|);
      if |amounts| == 1 {
        assert SumShares(amounts) == SumTo(amounts, 0) + amounts[0].amount;
        assert SumShares(rows) == SumTo(rows, 0) + rows[0].amount;
      }
    }
  }

  /** Carrying a READY account into the next close: with two or more members the re-opened shares add
      up exactly to the balance the snapshot shows; with one member they miss it by at most a cent,
      and match exactly when both figures round alike. */
  lemma OpeningCarry(account: int, amounts: seq<Share>, rows: seq<Share>, observed: int)
    requires amounts != [] && Reconciled(amounts, observed) && RowsOf(rows, amounts)
    ensures var reopened := SumShares(Reopened(FrozenAccount(account, rows, Some(ToCents(observed)))));
            && (|amounts| >= 2 ==> reopened == ToCents(observed))
            && Abs(reopened - ToCents(observed)) <= CENT
            && (|amounts| == 1 ==> (reopened == ToCents(observed) <==> ToCents(observed) == ToCents(SumShares(amounts))))
  {
    ReconciledIsClose(amounts, observed);
    ReopenedSum(FrozenAccount(account, rows, Some(ToCents(observed))));
    RowsDrift(rows, amounts);
    CarryArithmetic(SumShares(amounts), SumShares(rows), observed, |rows|);
    hide ToCents, SumTo, Reopened;
  }

  /** The arithmetic of the residue threshold, in units. */
  lemma CarryArithmetic(exact: int, stored: int, observed: int, n: nat)
    requires n > 0 && 2 * Abs(observed - exact) < CENT
    requires IsCents(stored) && 2 * Abs(stored - exact) <= n * CENT
    ensures n >= 2 ==> Abs(ToCents(observed) - stored) < n * CENT
    ensures n == 1 ==> Abs(ToCents(observed) - stored) <= CENT
  {
    hide RoundHalfUp;
    assert 2 * Abs(ToCents(observed) - stored) < n * CENT + 2 * CENT;
  }

  // ---- The opening position --------------------------------------------------------------------

  /** Positions per account and member after the first n rows.  A baseline row is a frozen row without
      an observed balance: captured opening balances and adjustments enter as they are. */
  function OpenedMembers(rows: seq<FrozenAccount>, n: nat): Position
    requires n <= |rows|
  {
    if n == 0 then map[] else
    var s := Reopened(rows[n - 1]);
    AddShares(OpenedMembers(rows, n - 1), rows[n - 1].account, s, |s|)
  }

  function OpenedTotals(rows: seq<FrozenAccount>, n: nat): map<int, int>
    requires n <= |rows|
  {
    if n == 0 then map[] else
    var s := Reopened(rows[n - 1]);
    AddMembers(OpenedTotals(rows, n - 1), s, |s|)
  }

  method OpenPosition(rows: seq<FrozenAccount>) returns (members: Position, totals: map<int, int>)
    ensures members == OpenedMembers(rows, |rows|) && totals == OpenedTotals(rows, |rows|)
    ensures forall m :: MemberTotal(members, m) == Get(totals, m)
  {
    members, totals := map[], map[];
    for i := 0 to |rows|
      invariant members == OpenedMembers(rows, i) && totals == OpenedTotals(rows, i)
    {
      hide Reopened, AddShares, AddMembers;
      members, totals := OpenAccount(members, totals, rows[i].account, Reopened(rows[i]));
    }
    hide OpenedMembers, OpenedTotals, MemberTotal;
    forall m ensures MemberTotal(members, m) == Get(totals, m) {
      OpenedMemberAgrees(rows, |rows|, m);
    }
  }

  /** Adds the shares of one account to both dictionaries. */
  method OpenAccount(before: Position, totalsBefore: map<int, int>, account: int, s: seq<Share>)
    returns (members: Position, totals: map<int, int>)
    ensures members == AddShares(before, account, s, |s|) && totals == AddMembers(totalsBefore, s, |s|)
  {
    members, totals := before, totalsBefore;
    for j := 0 to |s|
      invariant members == AddShares(before, account, s, j) && totals == AddMembers(totalsBefore, s, j)
    {
      members := Plus(members, (account, s[j].member), s[j].amount);
      totals := Plus(totals, s[j].member, s[j].amount);
    }
  }

  /** A member opens with what it holds over all accounts. */
  lemma {:induction false} OpenedMemberAgrees(rows: seq<FrozenAccount>, n: nat, m: int)
    requires n <= |rows|
    ensures MemberTotal(OpenedMembers(rows, n), m) == Get(OpenedTotals(rows, n), m)
  {
    if n == 0 {
      assert MemberPart(map[], m) == map[];
    } else {
      var s := Reopened(rows[n - 1]);
      OpenedMemberAgrees(rows, n - 1, m);
      AddSharesMember(OpenedMembers(rows, n - 1), rows[n - 1].account, s, |s|, m);
      AddMembersGet(OpenedTotals(rows, n - 1), s, |s|, m);
    }
  }

  /** What the first n rows put on an account. */
  ghost function PutOn(rows: seq<FrozenAccount>, n: nat, account: int): int
    requires n <= |rows|
  {
    if n == 0 then 0 else
    PutOn(rows, n - 1, account) + if rows[n - 1].account == account then SumShares(Reopened(rows[n - 1])) else 0
  }

  lemma {:induction false} OpenedAccount(rows: seq<FrozenAccount>, n: nat, account: int)
    requires n <= |rows|
    ensures AccountTotal(OpenedMembers(rows, n), account) == PutOn(rows, n, account)
  {
    if n == 0 {
      assert AccountPart(map[], account) == map[];
    } else {
      var s := Reopened(rows[n - 1]);
      OpenedAccount(rows, n - 1, account);
      AddSharesAccount(OpenedMembers(rows, n - 1), rows[n - 1].account, s, |s|, account);
    }
  }

  lemma {:induction false} PutOnOne(rows: seq<FrozenAccount>, n: nat, i: nat)
    requires i < |rows| && n <= |rows|
    requires forall j, k :: 0 <= j < k < |rows| ==> rows[j].account != rows[k].account
    ensures PutOn(rows, n, rows[i].account) == if i < n then SumShares(Reopened(rows[i])) else 0
  {
    if n > 0 { PutOnOne(rows, n - 1, i); }
  }

  /** A READY snapshot row together with the figures it was computed from. */
  ghost predicate ReadyRow(row: FrozenAccount, amounts: seq<Share>, observed: int) {
    && amounts != [] && Reconciled(amounts, observed) && RowsOf(row.closing, amounts)
    && row.observed == Some(ToCents(observed))
  }

  /** The next close opens every account of a READY snapshot with the balance that snapshot shows,
      provided two or more members share it. */
  lemma SnapshotReopens(rows: seq<FrozenAccount>, i: nat, amounts: seq<Share>, observed: int)
    requires i < |rows| && ReadyRow(rows[i], amounts, observed)
    requires forall j, k :: 0 <= j < k < |rows| ==> rows[j].account != rows[k].account
    ensures Abs(AccountTotal(OpenedMembers(rows, |rows|), rows[i].account) - ToCents(observed)) <= CENT
    ensures |amounts| >= 2 ==> AccountTotal(OpenedMembers(rows, |rows|), rows[i].account) == ToCents(observed)
  {
    OpenedAccount(rows, |rows|, rows[i].account);
    PutOnOne(rows, |rows|, i);
    OpeningCarry(rows[i].account, amounts, rows[i].closing, observed);
    assert rows[i] == FrozenAccount(rows[i].account, rows[i].closing, Some(ToCents(observed)));
    hide ToCents, Reopened;
  }

  // ---- The baseline of an activation -----------------------------------------------------------

  /** `_capture_account_opening`: the balance at the baseline split to the last 1e-8. */
  method CaptureAccountOpening(account: int, balance: int, vector: seq<Weight>) returns (row: FrozenAccount)
    requires ValidVector(vector)
    ensures row == FrozenAccount(account, Allocated(balance, vector, 1), None)
    ensures SumShares(Reopened(row)) == balance
  {
    var shares := Allocate(balance, vector, 1);
    row := FrozenAccount(account, shares, None);
  }

  /** Sum of the first n rows; an opening adjustment is a row with a single share. */
  function RowsTotal(adjustments: seq<FrozenAccount>, n: nat): int
    requires n <= |adjustments|
  {
    if n == 0 then 0 else RowsTotal(adjustments, n - 1) + SumShares(adjustments[n - 1].closing)
  }

  lemma {:induction false} OpenedGrandTotal(rows: seq<FrozenAccount>, n: nat)
    requires n <= |rows| && forall i :: 0 <= i < |rows| ==> rows[i].observed.None?
    ensures Total(OpenedTotals(rows, n)) == RowsTotal(rows, n)
  {
    if n > 0 {
      OpenedGrandTotal(rows, n - 1);
      AddMembersTotal(OpenedTotals(rows, n - 1), rows[n - 1].closing, |rows[n - 1].closing|);
    }
  }

  lemma {:induction false} RowsTotalAppend(a: seq<FrozenAccount>, b: seq<FrozenAccount>, n: nat)
    requires n <= |b|
    ensures RowsTotal(a + b, |a| + n) == RowsTotal(a, |a|) + RowsTotal(b, n)
  {
    if n == 0 {
      RowsTotalPrefix(a, b, |a|);
    } else {
      RowsTotalAppend(a, b, n - 1);
      assert (a + b)[|a| + n - 1] == b[n - 1];
    }
  }

  lemma {:induction false} RowsTotalPrefix(a: seq<FrozenAccount>, b: seq<FrozenAccount>, n: nat)
    requires n <= |a|
    ensures RowsTotal(a + b, n) == RowsTotal(a, n)
  {
    if n > 0 { RowsTotalPrefix(a, b, n - 1); }
  }

  /** Zero-sum opening adjustments move money between members and accounts but leave the household
      total at the sum of the captured balances, and conversely. */
  lemma BaselineTotal(captured: seq<FrozenAccount>, adjustments: seq<FrozenAccount>)
    requires forall i :: 0 <= i < |captured| ==> captured[i].observed.None?
    requires forall i :: 0 <= i < |adjustments| ==> adjustments[i].observed.None?
    ensures Total(OpenedTotals(captured + adjustments, |captured + adjustments|)) == RowsTotal(captured, |captured|)
            <==> RowsTotal(adjustments, |adjustments|) == 0
  {
    OpenedGrandTotal(captured + adjustments, |captured + adjustments|);
    RowsTotalAppend(captured, adjustments, |adjustments|);
  }
}
