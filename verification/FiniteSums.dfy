/** Sums over the dictionaries the engine accumulates into.

    A `defaultdict(Decimal)` is a `map` read through `Get`; `d[k] += x` is `Plus`. */
module FiniteSums {
  import opened Money

  function Get<K>(m: map<K, int>, k: K): int { if k in m then m[k] else 0 }

  function Plus<K>(m: map<K, int>, k: K, d: int): map<K, int> { m[k := Get(m, k) + d] }

  /** Sum of all values of a dictionary. */
  ghost function Total<K>(m: map<K, int>): int {
    if m == map[] then 0 else
    var k :| k in m;
    m[k] + Total(m - {k})
  }

  lemma {:induction false} TotalWithout<K>(m: map<K, int>, k: K)
    ensures Total(m) == Get(m, k) + Total(m - {k})
    decreases |m|
  {
    if k !in m {
      assert m - {k} == m;
    } else {
      var p :| p in m && Total(m) == m[p] + Total(m - {p});
      if p != k {
        TotalWithout(m - {p}, k);
        TotalWithout(m - {k}, p);
        assert m - {p} - {k} == m - {k} - {p};
      }
    }
  }

  lemma TotalPlus<K>(m: map<K, int>, k: K, d: int)
    ensures Total(Plus(m, k, d)) == Total(m) + d
  {
    TotalWithout(m, k);
    TotalWithout(Plus(m, k, d), k);
    assert Plus(m, k, d) - {k} == m - {k};
  }

  /** The total only depends on what reading the dictionary returns. */
  lemma {:induction false} TotalAgree<K>(a: map<K, int>, b: map<K, int>)
    requires forall k :: Get(a, k) == Get(b, k)
    ensures Total(a) == Total(b)
    decreases |a| + |b|
  {
    if a == map[] && b == map[] { return; }
    var k :| k in a || k in b;
    TotalWithout(a, k);
    TotalWithout(b, k);
    forall j ensures Get(a - {k}, j) == Get(b - {k}, j) {
      assert Get(a, j) == Get(b, j);
    }
    TotalAgree(a - {k}, b - {k});
  }

  lemma {:induction false} ZeroTotal<K>(m: map<K, int>)
    requires forall k :: k in m ==> m[k] == 0
    ensures Total(m) == 0
    decreases |m|
  {
    if m != map[] {
      var k :| k in m;
      TotalWithout(m, k);
      ZeroTotal(m - {k});
    }
  }

  lemma GetWithout<K>(m: map<K, int>, k: K, j: K)
    ensures Get(m - {k}, j) == if j == k then 0 else Get(m, j)
  {
  }

  /** Dictionaries that add up key by key add up in total. */
  lemma {:induction false} TotalAdds<K>(a: map<K, int>, b: map<K, int>, sum: map<K, int>)
    requires forall k :: Get(sum, k) == Get(a, k) + Get(b, k)
    ensures Total(sum) == Total(a) + Total(b)
    decreases |a| + |b| + |sum|
  {
    if a == map[] && b == map[] && sum == map[] { return; }
    var k :| k in a || k in b || k in sum;
    TotalWithout(a, k);
    TotalWithout(b, k);
    TotalWithout(sum, k);
    assert |a - {k}| + |b - {k}| + |sum - {k}| < |a| + |b| + |sum|;
    hide Get, Total;
    forall j ensures Get(sum - {k}, j) == Get(a - {k}, j) + Get(b - {k}, j) {
      GetWithout(a, k, j);
      GetWithout(b, k, j);
      GetWithout(sum, k, j);
    }
    TotalAdds(a - {k}, b - {k}, sum - {k});
  }

  /** The entries of a dictionary whose key passes a test. */
  ghost function Part<K>(m: map<K, int>, keep: K -> bool): map<K, int> { map k | k in m && keep(k) :: m[k] }

  lemma PartPlus<K>(m: map<K, int>, k: K, d: int, keep: K -> bool)
    ensures Total(Part(Plus(m, k, d), keep)) == Total(Part(m, keep)) + if keep(k) then d else 0
  {
    if keep(k) {
      assert Part(Plus(m, k, d), keep) == Plus(Part(m, keep), k, d);
      TotalPlus(Part(m, keep), k, d);
    } else {
      assert Part(Plus(m, k, d), keep) == Part(m, keep);
    }
  }

  lemma PartAgree<K>(a: map<K, int>, b: map<K, int>, keep: K -> bool)
    requires forall k :: Get(a, k) == Get(b, k)
    ensures Total(Part(a, keep)) == Total(Part(b, keep))
  {
    forall k ensures Get(Part(a, keep), k) == Get(Part(b, keep), k) {
      assert Get(a, k) == Get(b, k);
    }
    TotalAgree(Part(a, keep), Part(b, keep));
  }

  lemma PartAdds<K>(a: map<K, int>, b: map<K, int>, sum: map<K, int>, keep: K -> bool)
    requires forall k :: Get(sum, k) == Get(a, k) + Get(b, k)
    ensures Total(Part(sum, keep)) == Total(Part(a, keep)) + Total(Part(b, keep))
  {
    forall k ensures Get(Part(sum, keep), k) == Get(Part(a, keep), k) + Get(Part(b, keep), k) {
      assert Get(sum, k) == Get(a, k) + Get(b, k);
    }
    TotalAdds(Part(a, keep), Part(b, keep), Part(sum, keep));
  }

  /** Key by key, what two dictionaries hold together. */
  function Merged<K>(a: map<K, int>, b: map<K, int>): map<K, int> { map k | k in a.Keys + b.Keys :: Get(a, k) + Get(b, k) }

  lemma MergedPart<K>(a: map<K, int>, b: map<K, int>, keep: K -> bool)
    ensures Total(Part(Merged(a, b), keep)) == Total(Part(a, keep)) + Total(Part(b, keep))
  {
    forall k ensures Get(Merged(a, b), k) == Get(a, k) + Get(b, k) {}
    hide Merged, Get, Part, Total;
    PartAdds(a, b, Merged(a, b), keep);
  }

  lemma {:induction false} TotalInCents<K>(m: map<K, int>)
    requires forall k :: k in m ==> IsCents(m[k])
    ensures IsCents(Total(m))
    decreases |m|
  {
    if m != map[] {
      var k :| k in m;
      TotalWithout(m, k);
      hide IsCents, Total;
      TotalInCents(m - {k});
      CentsAdd(m[k], Total(m - {k}));
    }
  }

  /** Positions are keyed by (account, member). */
  type Position = map<(int, int), int>

  ghost function AccountPart(p: Position, account: int): Position {
    map k | k in p && k.0 == account :: p[k]
  }

  ghost function MemberPart(p: Position, member: int): Position {
    map k | k in p && k.1 == member :: p[k]
  }

  /** What one account holds over all members. */
  ghost function AccountTotal(p: Position, account: int): int { Total(AccountPart(p, account)) }

  /** What one member holds over all accounts. */
  ghost function MemberTotal(p: Position, member: int): int { Total(MemberPart(p, member)) }

  lemma AccountTotalPlus(p: Position, k: (int, int), d: int, account: int)
    ensures AccountTotal(Plus(p, k, d), account) == AccountTotal(p, account) + if k.0 == account then d else 0
  {
    if k.0 == account {
      assert AccountPart(Plus(p, k, d), account) == Plus(AccountPart(p, account), k, d);
      TotalPlus(AccountPart(p, account), k, d);
    } else {
      assert AccountPart(Plus(p, k, d), account) == AccountPart(p, account);
    }
  }

  lemma MemberTotalPlus(p: Position, k: (int, int), d: int, member: int)
    ensures MemberTotal(Plus(p, k, d), member) == MemberTotal(p, member) + if k.1 == member then d else 0
  {
    if k.1 == member {
      assert MemberPart(Plus(p, k, d), member) == Plus(MemberPart(p, member), k, d);
      TotalPlus(MemberPart(p, member), k, d);
    } else {
      assert MemberPart(Plus(p, k, d), member) == MemberPart(p, member);
    }
  }

  /** A duplicate-free list. */
  ghost predicate Distinct<T>(s: seq<T>) { forall i, j :: 0 <= i < j < |s| ==> s[i] != s[j] }

  /** When every member's positions add up to its total, so does the household. */
  lemma {:induction false} MembersMakeTotal(p: Position, totals: map<int, int>)
    requires forall m :: MemberTotal(p, m) == Get(totals, m)
    ensures Total(p) == Total(totals)
    decreases |p|
  {
    if p == map[] {
      forall m ensures Get(totals, m) == Get(map[], m) {
        assert MemberPart(p, m) == map[];
      }
      TotalAgree(totals, map[]);
    } else {
      var k :| k in p;
      var rest := p - {k};
      assert p == Plus(rest, k, p[k]);
      var others := Plus(totals, k.1, -p[k]);
      forall m ensures MemberTotal(rest, m) == Get(others, m) {
        MemberTotalPlus(rest, k, p[k], m);
        assert MemberTotal(p, m) == Get(totals, m);
      }
      MembersMakeTotal(rest, others);
      TotalWithout(p, k);
      TotalPlus(totals, k.1, -p[k]);
    }
  }
}
