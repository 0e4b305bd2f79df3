/** Quick entries (`services_quick_entry.py`): the entries each movement type writes, when they are accepted,
    and how they move balances. */
module QuickEntry {
  import opened Wrappers
  import opened FiniteSums
  import opened Money
  import opened Ledger

  datatype Movement = IncomeMove | ExpenseMove | Transfer | Investment | Revaluation | Adjustment | DebtPayment | OtherMove

  datatype Direction = Inflow | Outflow | Reinvestment

  datatype Quick = Quick(movement: Movement, direction: Direction, amount: int, account: Account, counterparty: Account,
                         principal: Option<int>, interest: Option<int>, liability: Option<Account>, interestAccount: Option<Account>,
                         destination: Option<int>, booking: int, value: int, posted: bool)

  datatype Refusal = MissingLiability | MissingInterestAccount | ValueBeforeBooking | Invalid(problem: Problem)

  function Debit(a: Account, amount: int): Line { Line(a, true, amount, a.currency) }

  function Credit(a: Account, amount: int): Line { Line(a, false, amount, a.currency) }

  function OrZero(x: Option<int>): int { if x.Some? then x.value else 0 }

  /** `_resolve_adjustment_side`: whether the account is debited. */
  function AdjustmentDebits(kind: AccountType, delta: int): bool { if delta >= 0 then DebitIncreases(kind) else !DebitIncreases(kind) }

  /** `_build_quick_entry_payload`. */
  function Payload(q: Quick): Result<seq<Line>, Refusal> {
    var arriving := if q.destination.Some? then q.destination.value else q.amount;
    match q.movement
    case IncomeMove => Ok([Debit(q.account, q.amount), Credit(q.counterparty, q.amount)])
    case ExpenseMove => Ok([Debit(q.counterparty, q.amount), Credit(q.account, q.amount)])
    case Transfer => Ok([Debit(q.counterparty, arriving), Credit(q.account, q.amount)])
    case Investment =>
      if q.direction == Outflow then Ok([Debit(q.account, arriving), Credit(q.counterparty, q.amount)])
      else Ok([Debit(q.counterparty, arriving), Credit(q.account, q.amount)])
    case Revaluation =>
      var gain := q.amount >= 0;
      Ok([Line(q.account, gain, Abs(q.amount), q.account.currency), Line(q.counterparty, !gain, Abs(q.amount), q.counterparty.currency)])
    case Adjustment =>
      var debits := AdjustmentDebits(q.account.kind, q.amount);
      Ok([Line(q.account, debits, Abs(q.amount), q.account.currency), Line(q.counterparty, !debits, Abs(q.amount), q.counterparty.currency)])
    case DebtPayment =>
      if q.liability.None? then Err(MissingLiability) else
      var rows := [Debit(q.liability.value, OrZero(q.principal)), Credit(q.account, q.amount)];
      if OrZero(q.interest) <= 0 then Ok(rows)
      else if q.interestAccount.None? then Err(MissingInterestAccount)
      else Ok([rows[0], Debit(q.interestAccount.value, OrZero(q.interest)), rows[1]])
    case OtherMove => Ok([Debit(q.counterparty, q.amount), Credit(q.account, q.amount)])
  }

  /** A transfer or investment between two currencies may leave each unbalanced. */
  predicate Exchanges(q: Quick) { (q.movement.Investment? || q.movement.Transfer?) && q.account.currency != q.counterparty.currency }

  ghost function Verdict(q: Quick, user: int): Result<seq<Line>, Refusal> {
    var payload := Payload(q);
    if payload.Err? then payload
    else if q.value < q.booking then Err(ValueBeforeBooking)
    else
      var problem := Check(payload.value, user, Exchanges(q));
      if problem.Some? then Err(Invalid(problem.value)) else payload
  }

  // ---- Acceptance -----------------------------------------------------------------------------------------

  predicate Usable(a: Account, user: int) { a.user == user && |a.currency| == 3 }

  /** When a quick entry is accepted, movement by movement. */
  predicate Acceptable(q: Quick, user: int) {
    && q.booking <= q.value && Usable(q.account, user)
    && match q.movement
       case Transfer | Investment =>
         && Usable(q.counterparty, user) && q.amount > 0
         && (q.destination.Some? ==> q.destination.value > 0 && (q.account.currency == q.counterparty.currency ==> q.destination.value == q.amount))
       case Revaluation | Adjustment =>
         Usable(q.counterparty, user) && q.account.currency == q.counterparty.currency && q.amount != 0
       case DebtPayment =>
         && q.liability.Some? && Usable(q.liability.value, user) && q.liability.value.currency == q.account.currency
         && OrZero(q.principal) > 0 && q.amount == OrZero(q.principal) + Max(0, OrZero(q.interest))
         && (OrZero(q.interest) > 0 ==>
               q.interestAccount.Some? && Usable(q.interestAccount.value, user) && q.interestAccount.value.currency == q.account.currency)
       case IncomeMove | ExpenseMove | OtherMove =>
         Usable(q.counterparty, user) && q.account.currency == q.counterparty.currency && q.amount > 0
  }

  lemma PairSums(a: Line, b: Line, c: string, debit: bool)
    ensures LineSum([a, b], c, debit, 2) == OneSum(a, c, debit) + OneSum(b, c, debit)
  {
    assert LineSum([a, b], c, debit, 0) == 0;
    assert LineSum([a, b], c, debit, 1) == OneSum(a, c, debit);
  }

  function OneSum(l: Line, c: string, debit: bool): int { if l.currency == c && l.debit == debit then l.amount else 0 }

  lemma TripleSums(a: Line, b: Line, d: Line, c: string, debit: bool)
    ensures LineSum([a, b, d], c, debit, 3) == OneSum(a, c, debit) + OneSum(b, c, debit) + OneSum(d, c, debit)
  {
    assert LineSum([a, b, d], c, debit, 0) == 0;
    assert LineSum([a, b, d], c, debit, 1) == OneSum(a, c, debit);
    assert LineSum([a, b, d], c, debit, 2) == OneSum(a, c, debit) + OneSum(b, c, debit);
  }

  /** A debit and a credit balance when they agree in currency and amount. */
  lemma PairBalances(a: Line, b: Line)
    requires a.debit != b.debit && a.amount > 0 && b.amount > 0
    ensures LinesBalance([a, b]) <==> a.currency == b.currency && a.amount == b.amount
  {
    forall c, debit ensures LineSum([a, b], c, debit, 2) == OneSum(a, c, debit) + OneSum(b, c, debit) {
      PairSums(a, b, c, debit);
    }
    hide LineSum;
    if LinesBalance([a, b]) {
      assert OneSum(a, a.currency, true) + OneSum(b, a.currency, true) == OneSum(a, a.currency, false) + OneSum(b, a.currency, false);
    }
  }

  lemma TripleBalances(a: Line, b: Line, d: Line)
    requires a.debit && b.debit && !d.debit && a.amount > 0 && b.amount > 0 && d.amount > 0
    ensures LinesBalance([a, b, d]) <==> a.currency == b.currency == d.currency && d.amount == a.amount + b.amount
  {
    forall c, debit ensures LineSum([a, b, d], c, debit, 3) == OneSum(a, c, debit) + OneSum(b, c, debit) + OneSum(d, c, debit) {
      TripleSums(a, b, d, c, debit);
    }
    hide LineSum;
    if LinesBalance([a, b, d]) {
      assert LineSum([a, b, d], a.currency, true, 3) == LineSum([a, b, d], a.currency, false, 3);
      assert LineSum([a, b, d], b.currency, true, 3) == LineSum([a, b, d], b.currency, false, 3);
    }
  }

  lemma PairCheck(a: Line, b: Line, user: int, waived: bool)
    requires a.debit != b.debit && a.currency == a.account.currency && b.currency == b.account.currency
    ensures Check([a, b], user, waived).None?
            <==> Usable(a.account, user) && Usable(b.account, user) && a.amount > 0 && b.amount > 0
                 && (waived || (a.currency == b.currency && a.amount == b.amount))
  {
    var lines := [a, b];
    NoFault(lines, user, 2);
    assert lines[0] == a && lines[1] == b;
    if a.amount > 0 && b.amount > 0 { PairBalances(a, b); }
    hide LinesBalance, FirstFault;
  }

  lemma TripleCheck(a: Line, b: Line, d: Line, user: int)
    requires a.debit && b.debit && !d.debit
    requires a.currency == a.account.currency && b.currency == b.account.currency && d.currency == d.account.currency
    ensures Check([a, b, d], user, false).None?
            <==> Usable(a.account, user) && Usable(b.account, user) && Usable(d.account, user)
                 && a.amount > 0 && b.amount > 0 && d.amount > 0
                 && a.currency == b.currency == d.currency && d.amount == a.amount + b.amount
  {
    var lines := [a, b, d];
    NoFault(lines, user, 3);
    assert lines[0] == a && lines[1] == b && lines[2] == d;
    if a.amount > 0 && b.amount > 0 && d.amount > 0 { TripleBalances(a, b, d); }
    hide LinesBalance, FirstFault;
  }

  lemma AcceptedPair(q: Quick, user: int)
    requires !q.movement.DebtPayment?
    ensures Verdict(q, user).Ok? <==> Acceptable(q, user)
  {
    hide Check;
    var lines := Payload(q).value;
    PairCheck(lines[0], lines[1], user, Exchanges(q));
    assert lines == [lines[0], lines[1]];
  }

  lemma AcceptedDebt(q: Quick, user: int)
    requires q.movement.DebtPayment?
    ensures Verdict(q, user).Ok? <==> Acceptable(q, user)
  {
    hide Check;
    var payload := Payload(q);
    if payload.Ok? {
      var lines := payload.value;
      if |lines| == 2 {
        PairCheck(lines[0], lines[1], user, false);
        assert lines == [lines[0], lines[1]];
      } else {
        TripleCheck(lines[0], lines[1], lines[2], user);
        assert lines == [lines[0], lines[1], lines[2]];
      }
    }
  }

  /** Exactly the acceptable quick entries are written. */
  lemma AcceptedIff(q: Quick, user: int)
    ensures Verdict(q, user).Ok? <==> Acceptable(q, user)
  {
    hide Verdict, Acceptable;
    if q.movement.DebtPayment? { AcceptedDebt(q, user); } else { AcceptedPair(q, user); }
  }

  // ---- Posting --------------------------------------------------------------------------------------------

  function Postings(lines: seq<Line>): (p: seq<Posting>)
    ensures |p| == |lines|
  {
    seq(|lines|, i requires 0 <= i < |lines| => Posting(lines[i].account.id, lines[i].debit, lines[i].amount, lines[i].currency))
  }

  function TxOf(q: Quick, user: int, id: int, lines: seq<Line>): Tx {
    Tx(id, user, q.booking, q.posted, Exchanges(q), None, Postings(lines))
  }

  /** How a list of entries moves an account, in the account's own sense. */
  function Moves(entries: seq<Posting>, a: Account): int {
    Signed(a.kind, EntrySum(entries, a.id, true, |entries|), EntrySum(entries, a.id, false, |entries|))
  }

  lemma {:induction false} SideTotalAppend(txs: seq<Tx>, tx: Tx, f: Filter, account: int, debit: bool, n: nat)
    requires n <= |txs|
    ensures SideTotal(txs + [tx], f, account, debit, n) == SideTotal(txs, f, account, debit, n)
  {
    if n > 0 { SideTotalAppend(txs, tx, f, account, debit, n - 1); }
  }

  /** A new transaction moves the balances it counts towards, and no others. */
  lemma PostingMoves(txs: seq<Tx>, tx: Tx, a: Account, asOf: Option<int>, posted: Option<bool>)
    ensures Balance(txs + [tx], a, asOf, posted)
            == Balance(txs, a, asOf, posted) + if Counts(Filter(a.user, asOf, posted), tx) then Moves(tx.entries, a) else 0
  {
    var f := Filter(a.user, asOf, posted);
    SideTotalAppend(txs, tx, f, a.id, true, |txs|);
    SideTotalAppend(txs, tx, f, a.id, false, |txs|);
    assert SideTotal(txs + [tx], f, a.id, true, |txs| + 1) == SideTotal(txs, f, a.id, true, |txs|) + Counted(f, tx, a.id, true);
    assert SideTotal(txs + [tx], f, a.id, false, |txs| + 1) == SideTotal(txs, f, a.id, false, |txs|) + Counted(f, tx, a.id, false);
    hide SideTotal, EntrySum;
  }

  lemma SideOfTwo(p: seq<Posting>, account: int, debit: bool)
    requires |p| == 2
    ensures EntrySum(p, account, debit, 2) == OnSide(p[0], account, debit) + OnSide(p[1], account, debit)
  {
    assert EntrySum(p, account, debit, 1) == OnSide(p[0], account, debit);
  }

  lemma SideOfThree(p: seq<Posting>, account: int, debit: bool)
    requires |p| == 3
    ensures EntrySum(p, account, debit, 3) == OnSide(p[0], account, debit) + OnSide(p[1], account, debit) + OnSide(p[2], account, debit)
  {
    assert EntrySum(p, account, debit, 1) == OnSide(p[0], account, debit);
    assert EntrySum(p, account, debit, 2) == OnSide(p[0], account, debit) + OnSide(p[1], account, debit);
  }

  lemma PairMoves(lines: seq<Line>, a: Account)
    requires |lines| == 2
    ensures Moves(Postings(lines), a) == LineMoves(lines[0], a) + LineMoves(lines[1], a)
  {
    SideOfTwo(Postings(lines), a.id, true);
    SideOfTwo(Postings(lines), a.id, false);
    hide EntrySum;
  }

  function LineMoves(l: Line, a: Account): int {
    if l.account.id != a.id then 0 else if l.debit == DebitIncreases(a.kind) then l.amount else -l.amount
  }

  lemma TripleMoves(lines: seq<Line>, a: Account)
    requires |lines| == 3
    ensures Moves(Postings(lines), a) == LineMoves(lines[0], a) + LineMoves(lines[1], a) + LineMoves(lines[2], a)
  {
    SideOfThree(Postings(lines), a.id, true);
    SideOfThree(Postings(lines), a.id, false);
    hide EntrySum;
  }

  /** An amount debited to an account, as an account sees it. */
  function Seen(x: Account, at: Account, amount: int): int {
    if x.id != at.id then 0 else if DebitIncreases(x.kind) then amount else -amount
  }

  /** What a movement moves on an account: it debits one side and credits the other. */
  function Moved(q: Quick, x: Account): int
    requires Payload(q).Ok?
  {
    var arriving := if q.destination.Some? then q.destination.value else q.amount;
    match q.movement
    case IncomeMove | Revaluation => Seen(x, q.account, q.amount) - Seen(x, q.counterparty, q.amount)
    case ExpenseMove | OtherMove => Seen(x, q.counterparty, q.amount) - Seen(x, q.account, q.amount)
    case Transfer => Seen(x, q.counterparty, arriving) - Seen(x, q.account, q.amount)
    case Investment =>
      if q.direction == Outflow then Seen(x, q.account, arriving) - Seen(x, q.counterparty, q.amount)
      else Seen(x, q.counterparty, arriving) - Seen(x, q.account, q.amount)
    case Adjustment =>
      var debited := if DebitIncreases(q.account.kind) then q.amount else -q.amount;
      Seen(x, q.account, debited) - Seen(x, q.counterparty, debited)
    case DebtPayment =>
      Seen(x, q.liability.value, OrZero(q.principal)) - Seen(x, q.account, q.amount)
      + if OrZero(q.interest) > 0 then Seen(x, q.interestAccount.value, OrZero(q.interest)) else 0
  }

  function Debited(l: Line): int { if l.debit then l.amount else -l.amount }

  lemma LineSeen(l: Line, x: Account)
    ensures LineMoves(l, x) == Seen(x, l.account, Debited(l))
  {
  }

  lemma SeenOdd(x: Account, at: Account, amount: int)
    ensures Seen(x, at, -amount) == -Seen(x, at, amount)
  {
  }

  lemma PairSeen(lines: seq<Line>, x: Account)
    requires |lines| == 2
    ensures Moves(Postings(lines), x) == Seen(x, lines[0].account, Debited(lines[0])) + Seen(x, lines[1].account, Debited(lines[1]))
  {
    hide Postings, Moves;
    PairMoves(lines, x);
    LineSeen(lines[0], x);
    LineSeen(lines[1], x);
    hide Seen, LineMoves;
  }

  /** A debit of one account and a credit of another. */
  lemma PostedPair(debited: Account, d: int, credited: Account, c: int, x: Account)
    ensures Moves(Postings([Debit(debited, d), Credit(credited, c)]), x) == Seen(x, debited, d) - Seen(x, credited, c)
    ensures Moves(Postings([Credit(credited, c), Debit(debited, d)]), x) == Seen(x, debited, d) - Seen(x, credited, c)
  {
    PairSeen([Debit(debited, d), Credit(credited, c)], x);
    PairSeen([Credit(credited, c), Debit(debited, d)], x);
    SeenOdd(x, credited, c);
    hide Seen, Moves, Postings;
  }

  /** An amount that changes side with its sign. */
  lemma PostedSigned(a: Account, b: Account, debits: bool, size: int, x: Account)
    ensures var lines := [Line(a, debits, size, a.currency), Line(b, !debits, size, b.currency)];
            var debited := if debits then size else -size;
            Moves(Postings(lines), x) == Seen(x, a, debited) - Seen(x, b, debited)
  {
    PairSeen([Line(a, debits, size, a.currency), Line(b, !debits, size, b.currency)], x);
    SeenOdd(x, b, size);
    hide Seen, Moves, Postings;
  }

  lemma PostedThree(lines: seq<Line>, x: Account)
    requires |lines| == 3 && lines[0].debit && lines[1].debit && !lines[2].debit
    ensures Moves(Postings(lines), x)
            == Seen(x, lines[0].account, lines[0].amount) - Seen(x, lines[2].account, lines[2].amount)
               + Seen(x, lines[1].account, lines[1].amount)
  {
    hide Postings, Moves;
    TripleMoves(lines, x);
    LineSeen(lines[0], x);
    LineSeen(lines[1], x);
    LineSeen(lines[2], x);
    SeenOdd(x, lines[2].account, lines[2].amount);
    hide Seen, LineMoves;
  }

  lemma PayloadMoves(q: Quick, x: Account)
    requires Payload(q).Ok?
    ensures Moves(Postings(Payload(q).value), x) == Moved(q, x)
  {
    hide Postings, Moves, Seen;
    var arriving := if q.destination.Some? then q.destination.value else q.amount;
    match q.movement {
      case IncomeMove => PostedPair(q.account, q.amount, q.counterparty, q.amount, x);
      case ExpenseMove | OtherMove => PostedPair(q.counterparty, q.amount, q.account, q.amount, x);
      case Transfer => PostedPair(q.counterparty, arriving, q.account, q.amount, x);
      case Investment =>
        if q.direction == Outflow { PostedPair(q.account, arriving, q.counterparty, q.amount, x); }
        else { PostedPair(q.counterparty, arriving, q.account, q.amount, x); }
      case Revaluation => PostedSigned(q.account, q.counterparty, q.amount >= 0, Abs(q.amount), x);
      case Adjustment => PostedSigned(q.account, q.counterparty, AdjustmentDebits(q.account.kind, q.amount), Abs(q.amount), x);
      case DebtPayment =>
        if OrZero(q.interest) <= 0 { PostedPair(q.liability.value, OrZero(q.principal), q.account, q.amount, x); }
        else { PostedThree(Payload(q).value, x); }
    }
  }

  /** What an accepted movement does to the balance of any account, whichever accounts it names and even when
      two of them are the same. */
  lemma MovementMoves(q: Quick, user: int, x: Account)
    requires Verdict(q, user).Ok?
    ensures Payload(q).Ok? && Moves(Postings(Verdict(q, user).value), x) == Moved(q, x)
  {
    VerdictIsPayload(q, user);
    PayloadMoves(q, x);
    hide Verdict, Moves, Postings, Payload, Moved;
  }

  /** A movement whose two sides are the same account leaves every balance alone. */
  lemma SameAccountStays(q: Quick, user: int, x: Account)
    requires Verdict(q, user).Ok? && q.account == q.counterparty && !q.movement.DebtPayment?
    ensures Moves(Postings(Verdict(q, user).value), x) == 0
  {
    MovementMoves(q, user, x);
    AcceptedIff(q, user);
    hide Verdict, Moves, Postings, Payload;
  }

  /** What each accepted movement does to the balances of the different accounts it names: an adjustment moves
      its account by exactly the signed difference whatever the account's type; a transfer takes the amount out
      of one asset and puts the arriving amount into the other; a debt payment lowers the debt by the
      principal and the cash by principal plus interest; a revaluation moves the asset by the signed amount;
      income and expense move cash and their own account. */
  lemma MovementEffects(q: Quick, user: int)
    requires Verdict(q, user).Ok?
    ensures var p := Postings(Verdict(q, user).value);
            var arriving := if q.destination.Some? then q.destination.value else q.amount;
            && (q.account.id != q.counterparty.id ==>
                  && (q.movement.Adjustment? ==> Moves(p, q.account) == q.amount)
                  && (q.movement.Revaluation? && q.account.kind.Asset? ==> Moves(p, q.account) == q.amount)
                  && (q.movement.Transfer? && q.account.kind.Asset? && q.counterparty.kind.Asset? ==>
                        Moves(p, q.account) == -q.amount && Moves(p, q.counterparty) == arriving)
                  && (q.movement.Investment? && q.account.kind.Asset? && q.counterparty.kind.Asset? ==>
                        if q.direction == Outflow then Moves(p, q.account) == arriving && Moves(p, q.counterparty) == -q.amount
                        else Moves(p, q.account) == -q.amount && Moves(p, q.counterparty) == arriving)
                  && (q.movement.IncomeMove? && q.account.kind.Asset? && q.counterparty.kind.Income? ==>
                        Moves(p, q.account) == q.amount && Moves(p, q.counterparty) == q.amount)
                  && (q.movement.ExpenseMove? && q.account.kind.Asset? && q.counterparty.kind.Expense? ==>
                        Moves(p, q.account) == -q.amount && Moves(p, q.counterparty) == q.amount))
            && (q.movement.DebtPayment? && q.account.kind.Asset? && q.liability.value.kind.Liability?
                && q.liability.value.id != q.account.id
                && (q.interestAccount.Some? ==> q.interestAccount.value.id != q.account.id && q.interestAccount.value.id != q.liability.value.id) ==>
                  && Moves(p, q.liability.value) == -OrZero(q.principal)
                  && Moves(p, q.account) == -OrZero(q.principal) - Max(0, OrZero(q.interest)))
  {
    AcceptedIff(q, user);
    hide Verdict, Moves, Postings;
    MovementMoves(q, user, q.account);
    MovementMoves(q, user, q.counterparty);
    if q.movement.DebtPayment? { MovementMoves(q, user, q.liability.value); }
    hide Payload;
  }

  lemma VerdictIsPayload(q: Quick, user: int)
    requires Verdict(q, user).Ok?
    ensures Payload(q) == Verdict(q, user)
  {
    hide Check;
  }
}
