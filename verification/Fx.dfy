/** Currency conversion: the table of quotes, the in-memory cache built from it, the three ways of
    resolving a rate, and conversion with and without the cache.

    Rates are non-negative integers in units of 1e-8. */
module Fx {
  import opened Money
  import opened Wrappers

  const ONE: int := 100_000_000

  type Pair = (string, string)

  /** A row of the quote table; a table holds at most one row for a pair and a date. */
  datatype Quote = Quote(pair: Pair, date: int, rate: nat)

  ghost predicate ValidTable(table: set<Quote>) {
    forall p, q :: p in table && q in table && p.pair == q.pair && p.date == q.date ==> p == q
  }

  // ---- What every lookup is meant to return --------------------------------------------------

  /** `q` is the latest quote of its pair not after `date`, or the earliest one when none is. */
  ghost predicate Best(quotes: set<Quote>, pair: Pair, date: int, q: Quote) {
    && q in quotes && q.pair == pair
    && (q.date <= date ==> forall p :: p in quotes && p.pair == pair && p.date <= date ==> p.date <= q.date)
    && (q.date > date ==> forall p :: p in quotes && p.pair == pair ==> date < p.date && q.date <= p.date)
  }

  ghost predicate Resolves(quotes: set<Quote>, pair: Pair, date: int, rate: Option<nat>) {
    match rate
    case None => forall q :: q in quotes ==> q.pair != pair
    case Some(r) => exists q :: Best(quotes, pair, date, q) && q.rate == r
  }

  lemma ResolvesIsUnique(quotes: set<Quote>, pair: Pair, date: int, a: Option<nat>, b: Option<nat>)
    requires ValidTable(quotes) && Resolves(quotes, pair, date, a) && Resolves(quotes, pair, date, b)
    ensures a == b
  {
    if a.Some? && b.Some? {
      var p :| Best(quotes, pair, date, p) && p.rate == a.value;
      var q :| Best(quotes, pair, date, q) && q.rate == b.value;
      assert p.date == q.date;
    }
  }

  /** The rate every lookup of a pair must return. */
  ghost function Lookup(quotes: set<Quote>, pair: Pair, date: int): Option<nat> {
    if exists q :: Best(quotes, pair, date, q)
    then var q :| Best(quotes, pair, date, q); Some(q.rate)
    else None
  }

  lemma LookupResolves(quotes: set<Quote>, pair: Pair, date: int)
    ensures Resolves(quotes, pair, date, Lookup(quotes, pair, date))
  {
    var all := set q | q in quotes && q.pair == pair;
    var before := set q | q in all && q.date <= date;
    if q :| q in all {
      var best := if before != {} then Furthest(before, 1) else Furthest(all, -1);
      assert forall p :: p in quotes && p.pair == pair ==> p in all;
      assert forall p :: p in all && p.date <= date ==> p in before;
      assert Best(quotes, pair, date, best);
    } else {
      assert forall q :: q in quotes && q.pair == pair ==> q in all;
    }
  }

  /** A row of greatest date (direction 1) or least date (direction -1). */
  ghost function Furthest(rows: set<Quote>, direction: int): (q: Quote)
    requires rows != {} && (direction == 1 || direction == -1)
    ensures q in rows && forall p :: p in rows ==> direction * p.date <= direction * q.date
  {
    var p :| p in rows;
    if rows == {p} then p else
    var q := Furthest(rows - {p}, direction);
    if direction * q.date >= direction * p.date then q else p
  }

  // ---- Database-style lookup (`_fx_lookup_with_fallback`) ------------------------------------

  /** Two ordered queries: the last row not after the date, else the first row of the pair. */
  method DatabaseLookup(table: set<Quote>, pair: Pair, date: int) returns (rate: Option<nat>)
    ensures Resolves(table, pair, date, rate)
  {
    var before := set q | q in table && q.pair == pair && q.date <= date;
    if before != {} {
      var latest := Extreme(before, 1);
      assert Best(table, pair, date, latest);
      return Some(latest.rate);
    }
    var all := set q | q in table && q.pair == pair;
    if all == {} {
      assert forall q :: q in table && q.pair == pair ==> q in all;
      return None;
    }
    var earliest := Extreme(all, -1);
    assert earliest.date <= date ==> earliest in before;
    assert forall p :: p in table && p.pair == pair ==> p in all;
    assert forall p :: p in table && p.pair == pair && p.date <= date ==> p in before;
    assert Best(table, pair, date, earliest);
    rate := Some(earliest.rate);
  }

  /** First row of a query ordered by date, descending (direction 1) or ascending (direction -1). */
  method Extreme(rows: set<Quote>, direction: int) returns (q: Quote)
    requires rows != {} && (direction == 1 || direction == -1)
    ensures q in rows
    ensures forall p :: p in rows ==> direction * p.date <= direction * q.date
  {
    q :| q in rows;
    var rest := rows - {q};
    while rest != {}
      invariant rest <= rows && q in rows
      invariant forall p :: p in rows && p !in rest ==> direction * p.date <= direction * q.date
    {
      var p :| p in rest;
      if direction * p.date > direction * q.date { q := p; }
      rest := rest - {p};
    }
  }

  // ---- The cache (`build_fx_cache`) ----------------------------------------------------------

  /** One cached series, newest first, with the ascending list of its dates. */
  datatype Series = Series(entries: seq<(int, nat)>, dates: seq<int>)

  type Cache = map<Pair, Series>

  ghost predicate Descending(entries: seq<(int, nat)>) {
    forall i, j :: 0 <= i < j < |entries| ==> entries[i].0 > entries[j].0
  }

  ghost predicate DateIndex(s: Series) {
    && |s.dates| == |s.entries|
    && forall i :: 0 <= i < |s.dates| ==> s.dates[i] == s.entries[|s.entries| - 1 - i].0
  }

  /** A cached series holds exactly the quotes of its pair. */
  ghost predicate Holds(s: Series, pair: Pair, quotes: set<Quote>) {
    && (forall i :: 0 <= i < |s.entries| ==> Quote(pair, s.entries[i].0, s.entries[i].1) in quotes)
    && (forall q :: q in quotes && q.pair == pair ==> (q.date, q.rate) in s.entries)
  }

  ghost predicate ValidSeries(s: Series, pair: Pair, quotes: set<Quote>) {
    s.entries != [] && Descending(s.entries) && Holds(s, pair, quotes)
  }

  ghost predicate CacheOf(cache: Cache, quotes: set<Quote>) {
    && (forall pair :: pair in cache ==> ValidSeries(cache[pair], pair, quotes))
    && (forall q :: q in quotes ==> q.pair in cache)
  }

  ghost predicate Indexed(cache: Cache) { forall pair :: pair in cache ==> DateIndex(cache[pair]) }

  /** The rows of the ordered query: within a pair, newest first. */
  ghost predicate QueryOrder(rows: seq<Quote>) {
    forall i, j :: 0 <= i < j < |rows| && rows[i].pair == rows[j].pair ==> rows[i].date > rows[j].date
  }

  function FirstRows(rows: seq<Quote>, n: nat): set<Quote>
    requires n <= |rows|
  {
    set i | 0 <= i < n :: rows[i]
  }

  /** No row from position n on is as recent as what is already cached for its pair. */
  ghost predicate Pending(cache: Cache, rows: seq<Quote>, n: nat) {
    forall k, i {:trigger rows[k], cache[rows[k].pair].entries[i]} ::
      n <= k < |rows| && rows[k].pair in cache && 0 <= i < |cache[rows[k].pair].entries|
      ==> cache[rows[k].pair].entries[i].0 > rows[k].date
  }

  method BuildCache(rows: seq<Quote>) returns (cache: Cache)
    requires QueryOrder(rows)
    ensures CacheOf(cache, FirstRows(rows, |rows|)) && Indexed(cache)
  {
    var plain := map[];
    for n := 0 to |rows|
      invariant CacheOf(plain, FirstRows(rows, n))
      invariant Pending(plain, rows, n)
    {
      var row := rows[n];
      var entries := if row.pair in plain then plain[row.pair].entries else [];
      AppendQuote(plain, FirstRows(rows, n), row, entries);
      assert FirstRows(rows, n + 1) == FirstRows(rows, n) + {row};
      PendingStep(plain, rows, n, entries);
      plain := plain[row.pair := Series(entries + [(row.date, row.rate)], [])];
    }
    cache := IndexDates(plain);
    SameEntries(plain, cache, FirstRows(rows, |rows|));
  }

  lemma PendingStep(cache: Cache, rows: seq<Quote>, n: nat, entries: seq<(int, nat)>)
    requires QueryOrder(rows) && n < |rows| && Pending(cache, rows, n)
    requires entries == if rows[n].pair in cache then cache[rows[n].pair].entries else []
    ensures Pending(cache[rows[n].pair := Series(entries + [(rows[n].date, rows[n].rate)], [])], rows, n + 1)
  {
  }

  /** Gives every series its ascending date index. */
  method IndexDates(plain: Cache) returns (cache: Cache)
    ensures cache.Keys == plain.Keys && Indexed(cache)
    ensures forall pair :: pair in cache ==> cache[pair].entries == plain[pair].entries
  {
    cache := plain;
    var pending := cache.Keys;
    while pending != {}
      invariant pending <= cache.Keys == plain.Keys
      invariant forall pair :: pair in cache ==> cache[pair].entries == plain[pair].entries
      invariant forall pair :: pair in cache && pair !in pending ==> DateIndex(cache[pair])
    {
      var pair :| pair in pending;
      var entries := cache[pair].entries;
      cache := cache[pair := Series(entries, seq(|entries|, i requires 0 <= i < |entries| => entries[|entries| - 1 - i].0))];
      pending := pending - {pair};
    }
  }

  lemma AppendQuote(cache: Cache, quotes: set<Quote>, row: Quote, entries: seq<(int, nat)>)
    requires CacheOf(cache, quotes)
    requires entries == if row.pair in cache then cache[row.pair].entries else []
    requires forall i :: 0 <= i < |entries| ==> entries[i].0 > row.date
    ensures CacheOf(cache[row.pair := Series(entries + [(row.date, row.rate)], [])], quotes + {row})
  {
    var s := Series(entries + [(row.date, row.rate)], []);
    assert ValidSeries(s, row.pair, quotes + {row}) by {
      forall q | q in quotes + {row} && q.pair == row.pair ensures (q.date, q.rate) in s.entries {
        if q == row {
          assert s.entries[|entries|] == (row.date, row.rate);
        } else {
          assert (q.date, q.rate) in entries;
        }
      }
    }
    forall pair | pair in cache && pair != row.pair ensures ValidSeries(cache[pair], pair, quotes + {row}) {
      assert ValidSeries(cache[pair], pair, quotes);
    }
  }

  lemma SameEntries(a: Cache, b: Cache, quotes: set<Quote>)
    requires CacheOf(a, quotes) && a.Keys == b.Keys
    requires forall pair :: pair in a ==> a[pair].entries == b[pair].entries
    ensures CacheOf(b, quotes)
  {
    forall pair | pair in b ensures ValidSeries(b[pair], pair, quotes) {
      assert ValidSeries(a[pair], pair, quotes);
    }
  }

  // ---- Cache lookup: binary search and linear scan -------------------------------------------

  /** `bisect_right`: how many of the ascending dates are not after `date`. */
  method BisectRight(dates: seq<int>, date: int) returns (index: nat)
    requires forall i, j :: 0 <= i < j < |dates| ==> dates[i] < dates[j]
    ensures index <= |dates|
    ensures forall i :: 0 <= i < index ==> dates[i] <= date
    ensures forall i :: index <= i < |dates| ==> date < dates[i]
  {
    var low, high := 0, |dates|;
    while low < high
      invariant 0 <= low <= high <= |dates|
      invariant forall i :: 0 <= i < low ==> dates[i] <= date
      invariant forall i :: high <= i < |dates| ==> date < dates[i]
    {
      var mid := (low + high) / 2;
      if date < dates[mid] { high := mid; } else { low := mid + 1; }
    }
    index := low;
  }

  /** The lookup on a series with a date index. */
  method IndexedLookup(s: Series, pair: Pair, ghost quotes: set<Quote>, date: int) returns (rate: nat)
    requires ValidSeries(s, pair, quotes) && DateIndex(s)
    ensures Resolves(quotes, pair, date, Some(rate))
  {
    var n := |s.entries|;
    var count := BisectRight(s.dates, date);
    var at := if count > 0 then n - count else n - 1;
    rate := s.entries[at].1;
    forall i | 0 <= i < n ensures s.entries[i].0 <= date <==> n - count <= i {
      assert s.entries[i].0 == s.dates[n - 1 - i];
    }
    PositionIsBest(s, pair, quotes, date, at);
  }

  /** The lookup on a hand-built list, without an index. */
  method ScanLookup(s: Series, pair: Pair, ghost quotes: set<Quote>, date: int) returns (rate: nat)
    requires ValidSeries(s, pair, quotes)
    ensures Resolves(quotes, pair, date, Some(rate))
  {
    for i := 0 to |s.entries|
      invariant forall j :: 0 <= j < i ==> date < s.entries[j].0
    {
      if s.entries[i].0 <= date {
        PositionIsBest(s, pair, quotes, date, i);
        return s.entries[i].1;
      }
    }
    PositionIsBest(s, pair, quotes, date, |s.entries| - 1);
    rate := s.entries[|s.entries| - 1].1;
  }

  /** In a descending series the first entry not after the date, or else the last entry, is the best quote. */
  lemma PositionIsBest(s: Series, pair: Pair, quotes: set<Quote>, date: int, at: nat)
    requires ValidSeries(s, pair, quotes) && at < |s.entries|
    requires forall j :: 0 <= j < at ==> date < s.entries[j].0
    requires at < |s.entries| - 1 ==> s.entries[at].0 <= date
    ensures Resolves(quotes, pair, date, Some(s.entries[at].1))
  {
    var q := Quote(pair, s.entries[at].0, s.entries[at].1);
    forall p | p in quotes && p.pair == pair
      ensures p.date <= date ==> p.date <= q.date
      ensures q.date > date ==> date < p.date && q.date <= p.date
    {
      var j :| 0 <= j < |s.entries| && s.entries[j] == (p.date, p.rate);
    }
    assert Best(quotes, pair, date, q);
  }

  method CacheLookup(cache: Cache, ghost quotes: set<Quote>, pair: Pair, date: int) returns (rate: Option<nat>)
    requires ValidTable(quotes) && CacheOf(cache, quotes) && Indexed(cache)
    ensures rate == Lookup(quotes, pair, date)
  {
    LookupResolves(quotes, pair, date);
    if pair !in cache {
      rate := None;
    } else {
      var found := IndexedLookup(cache[pair], pair, quotes, date);
      rate := Some(found);
    }
    ResolvesIsUnique(quotes, pair, date, rate, Lookup(quotes, pair, date));
  }

  // ---- Conversion ------------------------------------------------------------------------------

  datatype Error = InvalidCode | MissingRate | ZeroRate

  /** A conversion factor as an exact fraction. */
  datatype Factor = Factor(num: int, den: int)

  function ValidCodes(from: string, to: string): bool { |from| == 3 && |to| == 3 }

  /** One leg of the pivot route: the direct rate, else one over the inverse rate.  Only
      `convert_currency` (strict) also rejects a direct rate of zero. */
  function Leg(direct: Option<nat>, inverse: Option<nat>, strict: bool): (leg: Result<Factor, Error>)
    ensures leg.Ok? ==> leg.value.den > 0
  {
    match direct
    case Some(rate) => if strict && rate == 0 then Err(ZeroRate) else Ok(Factor(rate, ONE))
    case None =>
      match inverse
      case Some(rate) => if rate == 0 then Err(ZeroRate) else Ok(Factor(ONE, rate))
      case None => Err(MissingRate)
  }

  function ViaPivot(amount: int, leg1: Result<Factor, Error>, leg2: Result<Factor, Error>): (r: Result<int, Error>)
    requires leg1.Ok? ==> leg1.value.den > 0
    requires leg2.Ok? ==> leg2.value.den > 0
    ensures r.Ok? ==> IsCents(r.value)
  {
    if leg1 == Err(MissingRate) || leg2 == Err(MissingRate) then Err(MissingRate)
    else if leg1.Err? then Err(leg1.error)
    else if leg2.Err? then Err(leg2.error)
    else
      ProductPositive(leg1.value.den, leg2.value.den);
      Ok(QuotientToCents(amount * (leg1.value.num * leg2.value.num), leg1.value.den * leg2.value.den))
  }

  lemma ProductPositive(a: int, b: int)
    requires a > 0 && b > 0
    ensures a * b > 0
  {
  }

  /** `convert_currency` (strict) and `convert_currency_cached` on the rates their lookups resolve. */
  function Convert(amount: int, from: string, to: string, pivot: string, rates: Pair -> Option<nat>, strict: bool)
    : (r: Result<int, Error>)
    ensures r.Ok? ==> IsCents(r.value)
  {
    if !ValidCodes(from, to) then Err(InvalidCode)
    else if from == to then Ok(ToCents(amount))
    else if rates((from, to)).Some? then Ok(QuotientToCents(amount * rates((from, to)).value, ONE))
    else if rates((to, from)).Some? then
      (if rates((to, from)).value == 0 then Err(ZeroRate)
       else Ok(QuotientToCents(amount * ONE, rates((to, from)).value)))
    else if pivot == from || pivot == to then Err(MissingRate)
    else ViaPivot(amount, Leg(rates((from, pivot)), rates((pivot, from)), strict),
                  Leg(rates((pivot, to)), rates((to, pivot)), strict))
  }

  /** What a conversion must return, from the rates alone: the same currency is rounded; a direct rate multiplies,
      an inverse one divides; otherwise the amount goes to the pivot and from there, each leg multiplied by its
      direct rate or divided by its inverse one.  Rates dividing by zero are refused, and by the strict form so
      is a direct leg of zero. */
  predicate Converts(amount: int, from: string, to: string, pivot: string, rates: Pair -> Option<nat>, strict: bool, r: Result<int, Error>) {
    if |from| != 3 || |to| != 3 then r == Err(InvalidCode)
    else if from == to then r.Ok? && NearestCents(r.value, amount, 1)
    else
      match (rates((from, to)), rates((to, from)))
      case (Some(direct), _) => r.Ok? && NearestCents(r.value, amount * direct, ONE)
      case (None, Some(inverse)) => if inverse == 0 then r == Err(ZeroRate) else r.Ok? && NearestCents(r.value, amount * ONE, inverse)
      case (None, None) =>
        if pivot == from || pivot == to || !Quoted(rates, from, pivot) || !Quoted(rates, pivot, to) then r == Err(MissingRate)
        else PivotConverts(amount, rates((from, pivot)), rates((pivot, from)), rates((pivot, to)), rates((to, pivot)), strict, r)
  }

  predicate Quoted(rates: Pair -> Option<nat>, a: string, b: string) { rates((a, b)).Some? || rates((b, a)).Some? }

  predicate PivotConverts(amount: int, direct1: Option<nat>, inverse1: Option<nat>, direct2: Option<nat>, inverse2: Option<nat>,
                          strict: bool, r: Result<int, Error>)
    requires (direct1.Some? || inverse1.Some?) && (direct2.Some? || inverse2.Some?)
  {
    match (direct1, direct2)
    case (Some(a), Some(b)) => if strict && (a == 0 || b == 0) then r == Err(ZeroRate) else r.Ok? && NearestCents(r.value, amount * (a * b), ONE * ONE)
    case (Some(a), None) =>
      if (strict && a == 0) || inverse2.value == 0 then r == Err(ZeroRate)
      else r.Ok? && NearestCents(r.value, amount * (a * ONE), ONE * inverse2.value)
    case (None, Some(b)) =>
      if inverse1.value == 0 || (strict && b == 0) then r == Err(ZeroRate)
      else r.Ok? && NearestCents(r.value, amount * (ONE * b), inverse1.value * ONE)
    case (None, None) =>
      if inverse1.value == 0 || inverse2.value == 0 then r == Err(ZeroRate)
      else r.Ok? && NearestCents(r.value, amount * (ONE * ONE), inverse1.value * inverse2.value)
  }

  lemma PivotIs(amount: int, direct1: Option<nat>, inverse1: Option<nat>, direct2: Option<nat>, inverse2: Option<nat>,
                strict: bool, r: Result<int, Error>)
    requires (direct1.Some? || inverse1.Some?) && (direct2.Some? || inverse2.Some?)
    ensures PivotConverts(amount, direct1, inverse1, direct2, inverse2, strict, r)
            <==> r == ViaPivot(amount, Leg(direct1, inverse1, strict), Leg(direct2, inverse2, strict))
  {
    var leg1, leg2 := Leg(direct1, inverse1, strict), Leg(direct2, inverse2, strict);
    if leg1.Ok? && leg2.Ok? {
      ProductPositive(leg1.value.den, leg2.value.den);
      if r.Ok? {
        QuotientIsNearest(amount * (leg1.value.num * leg2.value.num), leg1.value.den * leg2.value.den, r.value);
      }
    }
    hide QuotientToCents, NearestCents;
  }

  /** The conversion returns exactly that, in value and in refusal. */
  lemma ConversionIs(amount: int, from: string, to: string, pivot: string, rates: Pair -> Option<nat>, strict: bool, r: Result<int, Error>)
    ensures Converts(amount, from, to, pivot, rates, strict, r) <==> r == Convert(amount, from, to, pivot, rates, strict)
  {
    if r.Ok? {
      CentsAreNearest(amount, r.value);
      if rates((from, to)).Some? { QuotientIsNearest(amount * rates((from, to)).value, ONE, r.value); }
      if rates((to, from)).Some? && rates((to, from)).value > 0 { QuotientIsNearest(amount * ONE, rates((to, from)).value, r.value); }
    }
    if Quoted(rates, from, pivot) && Quoted(rates, pivot, to) {
      PivotIs(amount, rates((from, pivot)), rates((pivot, from)), rates((pivot, to)), rates((to, pivot)), strict, r);
    }
    hide QuotientToCents, ToCents, NearestCents, PivotConverts;
  }

  ghost predicate IsValue(amount: int, from: string, to: string, pivot: string, rates: Pair -> Option<nat>, v: int) {
    Converts(amount, from, to, pivot, rates, false, Ok(v))
  }

  /** What an amount is worth in another currency, if the rates say. */
  ghost function Value(amount: int, from: string, to: string, pivot: string, rates: Pair -> Option<nat>): Option<int> {
    if exists v :: IsValue(amount, from, to, pivot, rates, v) then
      var v :| IsValue(amount, from, to, pivot, rates, v);
      Some(v)
    else None
  }

  lemma ValueIs(amount: int, from: string, to: string, pivot: string, rates: Pair -> Option<nat>)
    ensures var r := Convert(amount, from, to, pivot, rates, false);
            Value(amount, from, to, pivot, rates) == if r.Ok? then Some(r.value) else None
  {
    var r := Convert(amount, from, to, pivot, rates, false);
    forall v ensures IsValue(amount, from, to, pivot, rates, v) <==> r == Ok(v) {
      ConversionIs(amount, from, to, pivot, rates, false, Ok(v));
    }
    hide IsValue, Convert;
    if r.Ok? { assert IsValue(amount, from, to, pivot, rates, r.value); }
  }

  method ConvertWithCache(amount: int, from: string, to: string, pivot: string, cache: Cache, ghost quotes: set<Quote>, date: int)
    returns (r: Result<int, Error>)
    requires ValidTable(quotes) && CacheOf(cache, quotes) && Indexed(cache)
    ensures r == Convert(amount, from, to, pivot, (pair: Pair) => Lookup(quotes, pair, date), false)
    ensures Converts(amount, from, to, pivot, (pair: Pair) => Lookup(quotes, pair, date), false, r)
  {
    ghost var rates := (pair: Pair) => Lookup(quotes, pair, date);
    ConversionIs(amount, from, to, pivot, rates, false, Convert(amount, from, to, pivot, rates, false));
    hide Converts, Lookup;
    if !ValidCodes(from, to) { return Err(InvalidCode); }
    if from == to { return Ok(ToCents(amount)); }
    var direct := CacheLookup(cache, quotes, (from, to), date);
    if direct.Some? { return Ok(QuotientToCents(amount * direct.value, ONE)); }
    var inverse := CacheLookup(cache, quotes, (to, from), date);
    if inverse.Some? {
      return if inverse.value == 0 then Err(ZeroRate) else Ok(QuotientToCents(amount * ONE, inverse.value));
    }
    if pivot == from || pivot == to { return Err(MissingRate); }
    var leg1 := CacheLookup(cache, quotes, (from, pivot), date);
    var leg1Inv := CacheLookup(cache, quotes, (pivot, from), date);
    var leg2 := CacheLookup(cache, quotes, (pivot, to), date);
    var leg2Inv := CacheLookup(cache, quotes, (to, pivot), date);
    r := ViaPivot(amount, Leg(leg1, leg1Inv, false), Leg(leg2, leg2Inv, false));
  }

  /** The conversion takes the pivot route over a direct leg of rate zero, with no inverse leg of rate zero. */
  predicate ZeroDirectLeg(from: string, to: string, pivot: string, rates: Pair -> Option<nat>) {
    && ValidCodes(from, to) && from != to && pivot != from && pivot != to
    && rates((from, to)).None? && rates((to, from)).None?
    && Leg(rates((from, pivot)), rates((pivot, from)), false).Ok?
    && Leg(rates((pivot, to)), rates((to, pivot)), false).Ok?
    && (rates((from, pivot)) == Some(0) || rates((pivot, to)) == Some(0))
  }

  lemma StrictnessMatters(amount: int, from: string, to: string, pivot: string, rates: Pair -> Option<nat>)
    ensures Convert(amount, from, to, pivot, rates, false) == Convert(amount, from, to, pivot, rates, true)
            <==> !ZeroDirectLeg(from, to, pivot, rates)
  {
    hide QuotientToCents, ToCents;
  }

  /** The rows a cache loads for a set of currencies. */
  ghost function Loaded(table: set<Quote>, currencies: set<string>): set<Quote> {
    set q | q in table && q.pair.0 in currencies && q.pair.1 in currencies
  }

  lemma LoadedLookup(table: set<Quote>, currencies: set<string>, pair: Pair, date: int)
    requires ValidTable(table) && pair.0 in currencies && pair.1 in currencies
    ensures Lookup(Loaded(table, currencies), pair, date) == Lookup(table, pair, date)
  {
    var quotes := Loaded(table, currencies);
    LookupResolves(quotes, pair, date);
    LookupResolves(table, pair, date);
    assert forall q :: q in table && q.pair == pair ==> q in quotes;
    if q :| Best(quotes, pair, date, q) && Lookup(quotes, pair, date) == Some(q.rate) {
      assert Best(table, pair, date, q);
    }
    ResolvesIsUnique(table, pair, date, Lookup(quotes, pair, date), Lookup(table, pair, date));
  }

  /** Converting with a cache that covers both currencies and the pivot equals converting with the
      table, in value and in rejection, exactly when the pivot route has no direct leg of rate zero. */
  lemma CachedConversionAgrees(amount: int, from: string, to: string, pivot: string,
                               table: set<Quote>, currencies: set<string>, date: int)
    requires ValidTable(table) && {from, to, pivot} <= currencies
    ensures var rates := (pair: Pair) => Lookup(table, pair, date);
            var cached := (pair: Pair) => Lookup(Loaded(table, currencies), pair, date);
            Convert(amount, from, to, pivot, cached, false) == Convert(amount, from, to, pivot, rates, true)
            <==> !ZeroDirectLeg(from, to, pivot, rates)
  {
    var rates := (pair: Pair) => Lookup(table, pair, date);
    var cached := (pair: Pair) => Lookup(Loaded(table, currencies), pair, date);
    forall a, b | a in currencies && b in currencies ensures cached((a, b)) == rates((a, b)) {
      LoadedLookup(table, currencies, (a, b), date);
    }
    assert Convert(amount, from, to, pivot, cached, false) == Convert(amount, from, to, pivot, rates, false) by {
      assert from in currencies && to in currencies && pivot in currencies;
      hide QuotientToCents, ToCents, Lookup;
    }
    StrictnessMatters(amount, from, to, pivot, rates);
  }

  // ---- A table on which the two differ ------------------------------------------------------------

  /** A euro quoted at zero dollars, a dollar at one pound; euros and pounds have no quote of their own. */
  function ZeroTable(): set<Quote> { {Quote(("EUR", "USD"), 1, 0), Quote(("USD", "GBP"), 1, ONE)} }

  lemma ZeroTableRates(date: int)
    ensures Lookup(ZeroTable(), ("EUR", "USD"), date) == Some(0) && Lookup(ZeroTable(), ("USD", "GBP"), date) == Some(ONE)
    ensures Lookup(ZeroTable(), ("EUR", "GBP"), date).None? && Lookup(ZeroTable(), ("GBP", "EUR"), date).None?
  {
    hide Lookup;
    LookupResolves(ZeroTable(), ("EUR", "USD"), date);
    LookupResolves(ZeroTable(), ("USD", "GBP"), date);
    LookupResolves(ZeroTable(), ("EUR", "GBP"), date);
    LookupResolves(ZeroTable(), ("GBP", "EUR"), date);
    assert Quote(("EUR", "USD"), 1, 0) in ZeroTable() && Quote(("USD", "GBP"), 1, ONE) in ZeroTable();
  }

  lemma OverZero(rates: Pair -> Option<nat>, strict: bool)
    requires rates(("EUR", "USD")) == Some(0) && rates(("USD", "GBP")) == Some(ONE)
    requires rates(("EUR", "GBP")).None? && rates(("GBP", "EUR")).None?
    ensures Convert(ONE, "EUR", "GBP", "USD", rates, strict) == if strict then Err(ZeroRate) else Ok(0)
  {
    assert "EUR"[0] != "GBP"[0] && "USD"[0] != "EUR"[0] && "USD"[0] != "GBP"[0];
    RoundHalfUpZero(ONE * ONE * CENT);
    hide RoundHalfUp;
  }

  /** On it, with the default pivot, one euro is worth no pounds with the cache, and cannot be converted without. */
  lemma ZeroLegDisagrees(date: int)
    ensures ValidTable(ZeroTable())
    ensures var rates := (pair: Pair) => Lookup(ZeroTable(), pair, date);
            var cached := (pair: Pair) => Lookup(Loaded(ZeroTable(), {"EUR", "USD", "GBP"}), pair, date);
            && Convert(ONE, "EUR", "GBP", "USD", cached, false) == Ok(0)
            && Convert(ONE, "EUR", "GBP", "USD", rates, true) == Err(ZeroRate)
  {
    ZeroTableRates(date);
    assert Loaded(ZeroTable(), {"EUR", "USD", "GBP"}) == ZeroTable();
    hide Lookup, Loaded, ZeroTable, Convert;
    OverZero((pair: Pair) => Lookup(ZeroTable(), pair, date), true);
    OverZero((pair: Pair) => Lookup(Loaded(ZeroTable(), {"EUR", "USD", "GBP"}), pair, date), false);
  }
}
