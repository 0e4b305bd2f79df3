/** Splitting one amount among members (`_allocate`, `_capture_account_opening`) and
    serialising member balances in cents (`_member_rows`). */
module Allocation {
  import opened Money

  /** One entry of an ownership vector; `percent` is in hundredths of a percent. */
  datatype Weight = Weight(member: int, percent: int)

  /** One item of the returned dictionary, in its insertion order. */
  datatype Share = Share(member: int, amount: int)

  const WHOLE: int := 10_000

  /** Sum of the first n percents. */
  function PercentTo(v: seq<Weight>, n: nat): int
    requires n <= |v|
  {
    if n == 0 then 0 else PercentTo(v, n - 1) + v[n - 1].percent
  }

  /** A resolved ownership: non-empty, one weight a member in member order, adding up to 100%. */
  ghost predicate ValidVector(v: seq<Weight>) {
    v != [] && PercentTo(v, |v|) == WHOLE && forall i, j :: 0 <= i < j < |v| ==> v[i].member < v[j].member
  }

  function SumTo(s: seq<Share>, n: nat): int
    requires n <= |s|
  {
    if n == 0 then 0 else SumTo(s, n - 1) + s[n - 1].amount
  }

  function SumShares(s: seq<Share>): int { SumTo(s, |s|) }

  function ShareOfTo(s: seq<Share>, member: int, n: nat): int
    requires n <= |s|
  {
    if n == 0 then 0 else ShareOfTo(s, member, n - 1) + if s[n - 1].member == member then s[n - 1].amount else 0
  }

  /** What a member receives in all. */
  function ShareOf(s: seq<Share>, member: int): int { ShareOfTo(s, member, |s|) }

  /** amount * percent / 100 quantised to a multiple of `step` units. */
  function Quota(amount: int, percent: int, step: int): int
    requires step > 0
  {
    RoundHalfUp(amount * percent, WHOLE * step) * step
  }

  /** Sum of the first n rounded quotas. */
  function QuotasTo(amount: int, v: seq<Weight>, step: int, n: nat): int
    requires step > 0 && n <= |v|
  {
    if n == 0 then 0 else QuotasTo(amount, v, step, n - 1) + Quota(amount, v[n - 1].percent, step)
  }

  /** Every member but the last gets its rounded quota, the last one the rest. */
  function ShareAt(amount: int, v: seq<Weight>, step: int, i: nat): int
    requires step > 0 && i < |v|
  {
    if i == |v| - 1 then amount - QuotasTo(amount, v, step, i) else Quota(amount, v[i].percent, step)
  }

  function Allocated(amount: int, v: seq<Weight>, step: int): seq<Share>
    requires step > 0
  {
    seq(|v|, i requires 0 <= i < |v| => Share(v[i].member, ShareAt(amount, v, step, i)))
  }

  method Allocate(amount: int, vector: seq<Weight>, step: int) returns (result: seq<Share>)
    requires step > 0
    ensures result == Allocated(amount, vector, step)
    ensures vector != [] ==> SumShares(result) == amount
  {
    var given := 0;
    result := [];
    for i := 0 to |vector|
      invariant |result| == i
      invariant forall j :: 0 <= j < i ==> result[j] == Share(vector[j].member, ShareAt(amount, vector, step, j))
      invariant i < |vector| ==> given == QuotasTo(amount, vector, step, i)
    {
      var share := if i == |vector| - 1 then amount - given else Quota(amount, vector[i].percent, step);
      result := result + [Share(vector[i].member, share)];
      given := given + share;
    }
    AllocatedSum(amount, vector, step);
  }

  lemma {:induction false} AllocatedSumTo(amount: int, v: seq<Weight>, step: int, n: nat)
    requires step > 0 && n < |v|
    ensures SumTo(Allocated(amount, v, step), n) == QuotasTo(amount, v, step, n)
  {
    if n > 0 { AllocatedSumTo(amount, v, step, n - 1); }
  }

  /** The shares of an amount add up to it exactly. */
  lemma AllocatedSum(amount: int, v: seq<Weight>, step: int)
    requires step > 0
    ensures v != [] ==> SumShares(Allocated(amount, v, step)) == amount
  {
    if v != [] { AllocatedSumTo(amount, v, step, |v| - 1); }
  }

  lemma QuotaOdd(amount: int, percent: int, step: int)
    requires step > 0
    ensures Quota(-amount, percent, step) == -Quota(amount, percent, step)
  {
    RoundHalfUpOdd(amount * percent, WHOLE * step);
  }

  lemma {:induction false} QuotasOdd(amount: int, v: seq<Weight>, step: int, n: nat)
    requires step > 0 && n <= |v|
    ensures QuotasTo(-amount, v, step, n) == -QuotasTo(amount, v, step, n)
  {
    if n > 0 {
      QuotasOdd(amount, v, step, n - 1);
      QuotaOdd(amount, v[n - 1].percent, step);
    }
  }

  /** Reversing an amount reverses what each member receives. */
  lemma {:induction false} AllocatedOdd(amount: int, v: seq<Weight>, step: int, member: int, n: nat)
    requires step > 0 && n <= |v|
    ensures ShareOfTo(Allocated(-amount, v, step), member, n) == -ShareOfTo(Allocated(amount, v, step), member, n)
  {
    if n > 0 {
      AllocatedOdd(amount, v, step, member, n - 1);
      QuotasOdd(amount, v, step, n - 1);
      QuotaOdd(amount, v[n - 1].percent, step);
    }
  }

  lemma QuotaBound(amount: int, percent: int, step: int)
    requires step > 0
    ensures 2 * Abs(WHOLE * Quota(amount, percent, step) - amount * percent) <= WHOLE * step
  {
    RoundHalfUpBound(amount * percent, WHOLE * step);
    var r := RoundHalfUp(amount * percent, WHOLE * step);
    assert WHOLE * (r * step) == r * (WHOLE * step);
  }

  lemma Distribute(a: int, b: int, c: int)
    ensures a * (b + c) == a * b + a * c && (b + c) * a == b * a + c * a
  {
  }

  lemma {:induction false} QuotasBound(amount: int, v: seq<Weight>, step: int, n: nat)
    requires step > 0 && n <= |v|
    ensures 2 * Abs(WHOLE * QuotasTo(amount, v, step, n) - amount * PercentTo(v, n)) <= n * (WHOLE * step)
  {
    if n > 0 {
      QuotasBound(amount, v, step, n - 1);
      QuotaBound(amount, v[n - 1].percent, step);
      hide Quota;
      Distribute(amount, PercentTo(v, n - 1), v[n - 1].percent);
      Distribute(WHOLE * step, n - 1, 1);
    }
  }

  /** Each share is within half a step of its exact quota, except that the last one carries up to
      half a step for every earlier member. */
  lemma AllocatedBounds(amount: int, v: seq<Weight>, step: int, i: nat)
    requires step > 0 && ValidVector(v) && i < |v|
    ensures 2 * Abs(WHOLE * Allocated(amount, v, step)[i].amount - amount * v[i].percent)
            <= (if i < |v| - 1 then 1 else i) * (WHOLE * step)
  {
    if i < |v| - 1 {
      QuotaBound(amount, v[i].percent, step);
    } else {
      QuotasBound(amount, v, step, i);
      assert amount * WHOLE == amount * PercentTo(v, i) + amount * v[i].percent;
    }
  }

  ghost predicate AllCents(s: seq<Share>) { forall i :: 0 <= i < |s| ==> IsCents(s[i].amount) }

  lemma QuotaCents(amount: int, percent: int)
    ensures IsCents(Quota(amount, percent, CENT))
  {
  }

  lemma {:induction false} QuotasCents(amount: int, v: seq<Weight>, n: nat)
    requires n <= |v|
    ensures IsCents(QuotasTo(amount, v, CENT, n))
  {
    if n > 0 {
      QuotasCents(amount, v, n - 1);
      QuotaCents(amount, v[n - 1].percent);
      CentsAdd(QuotasTo(amount, v, CENT, n - 1), Quota(amount, v[n - 1].percent, CENT));
      hide Quota, IsCents;
    }
  }

  lemma ShareCents(amount: int, v: seq<Weight>, i: nat)
    requires IsCents(amount) && i < |v|
    ensures IsCents(ShareAt(amount, v, CENT, i))
  {
    if i == |v| - 1 {
      QuotasCents(amount, v, i);
      hide QuotasTo, IsCents;
      CentsAdd(amount, QuotasTo(amount, v, CENT, i));
    } else {
      QuotaCents(amount, v[i].percent);
    }
  }

  /** A whole number of cents is split into whole numbers of cents. */
  lemma AllocatedCents(amount: int, v: seq<Weight>)
    requires IsCents(amount)
    ensures AllCents(Allocated(amount, v, CENT))
  {
    forall i | 0 <= i < |v| ensures IsCents(ShareAt(amount, v, CENT, i)) {
      ShareCents(amount, v, i);
    }
    hide ShareAt;
  }

  lemma {:induction false} QuotasOfZero(v: seq<Weight>, step: int, n: nat)
    requires step > 0 && n <= |v|
    ensures QuotasTo(0, v, step, n) == 0
  {
    if n > 0 {
      QuotasOfZero(v, step, n - 1);
      RoundHalfUpZero(WHOLE * step);
    }
  }

  /** Nothing is split into nothing. */
  lemma {:induction false} SharesOfZero(v: seq<Weight>, step: int, member: int, n: nat)
    requires step > 0 && n <= |v|
    ensures ShareOfTo(Allocated(0, v, step), member, n) == 0
  {
    if n > 0 {
      SharesOfZero(v, step, member, n - 1);
      QuotasOfZero(v, step, n);
      QuotasOfZero(v, step, n - 1);
    }
  }

  // ---- `_member_rows` -----------------------------------------------------------------------

  function RoundedTo(amounts: seq<Share>, n: nat): int
    requires n <= |amounts|
  {
    if n == 0 then 0 else RoundedTo(amounts, n - 1) + ToCents(amounts[n - 1].amount)
  }

  /** The rows a snapshot stores for one account, in cents: the last member absorbs the rounding. */
  function MemberRows(amounts: seq<Share>): (rows: seq<Share>)
    ensures |rows| == |amounts|
  {
    var total := ToCents(SumShares(amounts));
    seq(|amounts|, i requires 0 <= i < |amounts| =>
      Share(amounts[i].member,
            if i == |amounts| - 1 then total - RoundedTo(amounts, i) else ToCents(amounts[i].amount)))
  }

  method BuildMemberRows(amounts: seq<Share>) returns (result: seq<Share>)
    ensures result == MemberRows(amounts)
    ensures AllCents(result) && SumShares(result) == if amounts == [] then 0 else ToCents(SumShares(amounts))
  {
    var total := ToCents(SumShares(amounts));
    var given := 0;
    result := [];
    for i := 0 to |amounts|
      invariant |result| == i
      invariant forall j :: 0 <= j < i ==> result[j] == MemberRows(amounts)[j]
      invariant i < |amounts| ==> given == RoundedTo(amounts, i)
    {
      var share := if i == |amounts| - 1 then total - given else ToCents(amounts[i].amount);
      given := given + share;
      result := result + [Share(amounts[i].member, share)];
    }
    MemberRowsSum(amounts);
  }

  lemma {:induction false} MemberRowsSumTo(amounts: seq<Share>, n: nat)
    requires n < |amounts|
    ensures SumTo(MemberRows(amounts), n) == RoundedTo(amounts, n) && IsCents(RoundedTo(amounts, n))
  {
    if n > 0 {
      MemberRowsSumTo(amounts, n - 1);
      CentsAdd(RoundedTo(amounts, n - 1), ToCents(amounts[n - 1].amount));
      hide ToCents, IsCents;
    }
  }

  /** The stored rows add up to the account balance rounded once. */
  lemma MemberRowsSum(amounts: seq<Share>)
    ensures AllCents(MemberRows(amounts))
    ensures SumShares(MemberRows(amounts)) == if amounts == [] then 0 else ToCents(SumShares(amounts))
  {
    if amounts != [] {
      MemberRowsSumTo(amounts, |amounts| - 1);
      hide ToCents, IsCents;
      CentsAdd(ToCents(SumShares(amounts)), RoundedTo(amounts, |amounts| - 1));
    }
  }
}
