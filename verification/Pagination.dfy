/** Keyset pagination (`pagination.py`): pages cut by the (date, id) of the last row shown. */
module Pagination {
  import opened Wrappers
  import opened Calendar

  /** What orders a transaction: its booking date, as an ordinal, then its id. */
  datatype Key = Key(day: int, id: int)

  /** The row a comes after the row b in the descending order. */
  predicate Older(a: Key, b: Key) { a.day < b.day || (a.day == b.day && a.id < b.id) }

  predicate StrictlyDescending(s: seq<Key>) { forall i, j :: 0 <= i < j < |s| ==> Older(s[j], s[i]) }

  lemma {:induction false} NewestExists(s: set<Key>)
    requires s != {}
    ensures exists k :: k in s && Newest(s, k)
    decreases |s|
  {
    var k :| k in s;
    if s - {k} == {} {
      assert s == {k};
      assert Newest(s, k);
    } else {
      NewestExists(s - {k});
      var n :| n in s - {k} && Newest(s - {k}, n);
      var m := if Older(n, k) then k else n;
      assert forall x :: x in s ==> x == k || x in s - {k};
      assert Newest(s, m);
    }
  }

  lemma OlderAsymmetric()
    ensures forall a, b :: Older(a, b) ==> !Older(b, a)
  {
  }

  predicate Newest(s: set<Key>, k: Key) { forall x :: x in s ==> x == k || Older(x, k) }

  /** `order_by("-booking_date", "-id")`. */
  function Descending(s: set<Key>): (r: seq<Key>)
    ensures StrictlyDescending(r) && (forall k :: k in r <==> k in s) && |r| == |s|
    decreases |s|
  {
    hide Older;
    if s == {} then [] else
    NewestExists(s);
    OlderAsymmetric();
    var k :| k in s && Newest(s, k);
    var rest := Descending(s - {k});
    NewestFirst(s, k, rest);
    [k] + rest
  }

  lemma NewestFirst(s: set<Key>, k: Key, rest: seq<Key>)
    requires k in s && Newest(s, k) && StrictlyDescending(rest) && (forall x :: x in rest <==> x in s - {k}) && |rest| == |s - {k}|
    ensures StrictlyDescending([k] + rest) && (forall x :: x in [k] + rest <==> x in s) && |[k] + rest| == |s|
  {
    var all := [k] + rest;
    forall i, j | 0 <= i < j < |all| ensures Older(all[j], all[i]) {
      assert all[j] == rest[j - 1] && rest[j - 1] in rest;
      assert i > 0 ==> all[i] == rest[i - 1];
    }
  }

  function Below(table: set<Key>, cursor: Option<Key>): set<Key> {
    if cursor.None? then table else set k | k in table && Older(k, cursor.value)
  }

  datatype Page = Page(results: seq<Key>, next: Option<Key>)

  function Least(a: nat, b: nat): nat { if a <= b then a else b }

  /** `paginate_transactions` on the rows a list shows: one row more than the page tells whether there are
      others. */
  function Paginate(table: set<Key>, size: nat, cursor: Option<Key>): Page {
    var found := Descending(Below(table, cursor));
    var rows := found[..Least(size + 1, |found|)];
    var results := rows[..Least(size, |rows|)];
    Page(results, if |rows| > size && results != [] then Some(results[|results| - 1]) else None)
  }

  /** A page holds the rows just below the cursor; what it leaves out is older than its last row, and there
      is a next cursor, that row, exactly when something is left out. */
  lemma PageSplits(table: set<Key>, size: nat, cursor: Option<Key>)
    requires size > 0
    ensures var page := Paginate(table, size, cursor);
            && StrictlyDescending(page.results) && |page.results| <= size
            && (forall k :: k in page.results ==> k in Below(table, cursor))
            && (page.next.None? ==> forall k :: k in Below(table, cursor) ==> k in page.results)
            && (page.next.Some? ==> page.results != [] && page.next.value == page.results[|page.results| - 1])
            && (page.next.Some? ==> forall k :: k in Below(table, cursor) ==> k in page.results || Older(k, page.next.value))
  {
    var found := Descending(Below(table, cursor));
    var page := Paginate(table, size, cursor);
    assert page.results == found[..Least(size, |found|)];
    assert page.next.Some? <==> |found| > size;
    hide Below, Descending, Paginate;
    CutSplits(found, page.results);
    forall k | k in Below(table, cursor) ensures k in found {}
  }

  /** The head of a descending list, and what is left out. */
  lemma CutSplits(found: seq<Key>, head: seq<Key>)
    requires StrictlyDescending(found) && head <= found
    ensures StrictlyDescending(head) && (forall k :: k in head ==> k in found)
    ensures forall k :: k in found ==> k in head || (head != [] && Older(k, head[|head| - 1])) || head == []
  {
    hide Older;
    forall k | k in found ensures k in head || (head != [] && Older(k, head[|head| - 1])) || head == [] {
      var i :| 0 <= i < |found| && found[i] == k;
      if i < |head| { assert head[i] == k; }
    }
  }

  // ---- Following the cursor -----------------------------------------------------------------------------------

  /** All pages from a cursor on, over a table that does not change. */
  function Pages(table: set<Key>, size: nat, cursor: Option<Key>): seq<Key>
    requires size > 0
    decreases |Below(table, cursor)|
  {
    var page := Paginate(table, size, cursor);
    if page.next.None? then page.results else
    PageSplits(table, size, cursor);
    Shrinks(table, cursor, page.next.value);
    page.results + Pages(table, size, page.next)
  }

  lemma Shrinks(table: set<Key>, cursor: Option<Key>, next: Key)
    requires next in Below(table, cursor)
    ensures |Below(table, Some(next))| < |Below(table, cursor)|
  {
    var all, rest := Below(table, cursor), Below(table, Some(next));
    forall k | k in rest ensures k in all {}
    assert rest + (all - rest) == all;
    assert next in all - rest;
  }

  lemma NothingListed(a: seq<Key>)
    ensures (forall k :: k !in a) <==> a == []
  {
    if a != [] { assert a[0] in a; }
  }

  lemma HeadIsNewest(a: seq<Key>, k: Key)
    requires a != [] && StrictlyDescending(a)
    ensures k in a ==> k == a[0] || Older(k, a[0])
  {
  }

  /** A strictly descending listing of a set is unique. */
  lemma {:induction false} ListingUnique(a: seq<Key>, b: seq<Key>)
    requires StrictlyDescending(a) && StrictlyDescending(b) && forall k :: k in a <==> k in b
    ensures a == b
    decreases |a|
  {
    NothingListed(b);
    NothingListed(a);
    if a != [] {
      HeadIsNewest(a, b[0]);
      HeadIsNewest(b, a[0]);
      OlderAsymmetric();
      assert a[0] in a && b[0] in b;
      forall k ensures k in a[1..] <==> k in b[1..] {
        NotAgain(a);
        NotAgain(b);
        assert k in a <==> k == a[0] || k in a[1..] by { assert a == [a[0]] + a[1..]; }
        assert k in b <==> k == b[0] || k in b[1..] by { assert b == [b[0]] + b[1..]; }
      }
      ListingUnique(a[1..], b[1..]);
    }
  }

  lemma NotAgain(a: seq<Key>)
    requires a != [] && StrictlyDescending(a)
    ensures a[0] !in a[1..]
  {
  }

  lemma {:induction false} PagesCover(table: set<Key>, size: nat, cursor: Option<Key>)
    requires size > 0
    ensures var rows := Pages(table, size, cursor);
            StrictlyDescending(rows) && forall k :: k in rows <==> k in Below(table, cursor)
    decreases |Below(table, cursor)|
  {
    PageSplits(table, size, cursor);
    var page := Paginate(table, size, cursor);
    if page.next.Some? {
      Shrinks(table, cursor, page.next.value);
      PagesCover(table, size, page.next);
      var rest := Pages(table, size, page.next);
      BelowNext(table, cursor, page.next.value);
      hide Below, Paginate;
      DescendingJoin(page.results, rest);
    }
  }

  lemma BelowNext(table: set<Key>, cursor: Option<Key>, next: Key)
    requires next in Below(table, cursor)
    ensures forall k :: k in Below(table, Some(next)) ==> k in Below(table, cursor) && Older(k, next)
    ensures forall k :: k in Below(table, cursor) && Older(k, next) ==> k in Below(table, Some(next))
  {
  }

  /** Two descending lists, the second below the last of the first, join into one. */
  lemma DescendingJoin(a: seq<Key>, b: seq<Key>)
    requires StrictlyDescending(a) && StrictlyDescending(b) && a != []
    requires forall k :: k in b ==> Older(k, a[|a| - 1])
    ensures StrictlyDescending(a + b)
  {
    var s := a + b;
    forall i, j | 0 <= i < j < |s| ensures Older(s[j], s[i]) {
      if i < |a| <= j {
        assert b[j - |a|] in b;
        OlderTrans(s[j], a[|a| - 1], a[i]);
      }
    }
  }

  lemma OlderTrans(a: Key, b: Key, c: Key)
    requires Older(a, b) && (b == c || Older(b, c))
    ensures Older(a, c)
  {
  }

  /** Following the cursor to the end returns every row exactly once, in descending order. */
  lemma EveryRowOnce(table: set<Key>, size: nat)
    requires size > 0
    ensures Pages(table, size, None) == Descending(table)
  {
    PagesCover(table, size, None);
    ListingUnique(Pages(table, size, None), Descending(table));
  }

  // ---- While the table changes ----------------------------------------------------------------------------------

  datatype Walk = Walk(rows: seq<Key>, finished: bool)

  /** The i-th request sees the i-th table. */
  function Follow(tables: seq<set<Key>>, size: nat, i: nat, cursor: Option<Key>): Walk
    requires i <= |tables|
    decreases |tables| - i
  {
    if i == |tables| then Walk([], false) else
    var page := Paginate(tables[i], size, cursor);
    if page.next.None? then Walk(page.results, true) else
    var rest := Follow(tables, size, i + 1, page.next);
    Walk(page.results + rest.rows, rest.finished)
  }

  /** When rows are inserted and deleted between pages, nothing is shown twice or out of order, and a row
      that is there all along is shown if the end is reached. */
  lemma {:induction false} StableWhileChanging(tables: seq<set<Key>>, size: nat, i: nat, cursor: Option<Key>, row: Key)
    requires size > 0 && i <= |tables|
    ensures var walk := Follow(tables, size, i, cursor);
            && StrictlyDescending(walk.rows)
            && (cursor.Some? ==> forall k :: k in walk.rows ==> Older(k, cursor.value))
            && (walk.finished && (cursor.Some? ==> Older(row, cursor.value)) && (forall t :: i <= t < |tables| ==> row in tables[t]) ==>
                  row in walk.rows)
    decreases |tables| - i
  {
    if i < |tables| {
      PageSplits(tables[i], size, cursor);
      var page := Paginate(tables[i], size, cursor);
      if page.next.Some? {
        StableWhileChanging(tables, size, i + 1, page.next, row);
        var rest := Follow(tables, size, i + 1, page.next);
        assert page.next.value in Below(tables[i], cursor);
        DescendingJoin(page.results, rest.rows);
        forall k | k in rest.rows && cursor.Some? ensures Older(k, cursor.value) { OlderTrans(k, page.next.value, cursor.value); }
        hide Paginate, Older;
      }
    }
  }

  /** The same table at every request. */
  function Steady(table: set<Key>, n: nat): seq<set<Key>> { seq(n, i requires 0 <= i < n => table) }

  /** On a table that does not change, as many requests as there are rows left, and one more, reach the end and show
      the pages that following the cursor shows. */
  lemma {:induction false} FollowReachesEnd(table: set<Key>, size: nat, n: nat, i: nat, cursor: Option<Key>)
    requires size > 0 && i <= n && n - i > |Below(table, cursor)|
    ensures Follow(Steady(table, n), size, i, cursor) == Walk(Pages(table, size, cursor), true)
    decreases n - i
  {
    hide *;
    OneFollowed(table, size, n, i, cursor);
    OnePage(table, size, cursor);
    var page := Paginate(table, size, cursor);
    if page.next.Some? { FollowReachesEnd(table, size, n, i + 1, page.next); }
  }

  lemma OneFollowed(table: set<Key>, size: nat, n: nat, i: nat, cursor: Option<Key>)
    requires i < n
    ensures var page := Paginate(table, size, cursor);
            Follow(Steady(table, n), size, i, cursor)
            == if page.next.None? then Walk(page.results, true)
               else var rest := Follow(Steady(table, n), size, i + 1, page.next); Walk(page.results + rest.rows, rest.finished)
  {
    hide Paginate;
  }

  lemma OnePage(table: set<Key>, size: nat, cursor: Option<Key>)
    requires size > 0
    ensures var page := Paginate(table, size, cursor);
            && Pages(table, size, cursor) == (if page.next.None? then page.results else page.results + Pages(table, size, page.next))
            && (page.next.Some? ==> |Below(table, page.next)| < |Below(table, cursor)|)
  {
    PageSplits(table, size, cursor);
    var page := Paginate(table, size, cursor);
    hide Paginate, Below, Older;
    if page.next.Some? { Shrinks(table, cursor, page.next.value); }
  }

  // ---- The cursor text --------------------------------------------------------------------------------------------

  function Digit(d: nat): (c: char)
    requires d < 10
    ensures '0' <= c <= '9' && c as int - '0' as int == d
  {
    ['0', '1', '2', '3', '4', '5', '6', '7', '8', '9'][d]
  }

  function DigitValue(c: char): Option<nat> { if '0' <= c <= '9' then Some(c as int - '0' as int) else None }

  function Decimal(n: nat): (s: string)
    ensures s != [] && forall i :: 0 <= i < |s| ==> '0' <= s[i] <= '9'
  {
    if n < 10 then [Digit(n)] else Decimal(n / 10) + [Digit(n % 10)]
  }

  /** The number written by the first n characters. */
  function ParseTo(s: string, n: nat): Option<nat>
    requires n <= |s|
  {
    if n == 0 then Some(0) else
    var before := ParseTo(s, n - 1);
    var last := DigitValue(s[n - 1]);
    if before.None? || last.None? then None else Some(before.value * 10 + last.value)
  }

  function Parse(s: string): Option<nat> { if s == [] then None else ParseTo(s, |s|) }

  lemma {:induction false} ParsePrefix(a: string, b: string, n: nat)
    requires n <= |a|
    ensures ParseTo(a + b, n) == ParseTo(a, n)
  {
    if n > 0 { ParsePrefix(a, b, n - 1); }
  }

  lemma {:induction false} ParseDecimal(n: nat)
    ensures Parse(Decimal(n)) == Some(n)
  {
    if n < 10 {
      assert ParseTo(Decimal(n), 0) == Some(0);
    } else {
      ParseDecimal(n / 10);
      ParsePrefix(Decimal(n / 10), [Digit(n % 10)], |Decimal(n / 10)|);
    }
  }

  /** A number of two digits, with a leading zero. */
  function Two(n: nat): (s: string)
    requires n < 100
    ensures |s| == 2 && forall i :: 0 <= i < 2 ==> '0' <= s[i] <= '9'
  {
    [Digit(n / 10), Digit(n % 10)]
  }

  datatype Date = Date(year: nat, month: nat, day: nat)

  predicate ValidDate(d: Date) { 1 <= d.year <= 9999 && 1 <= d.month <= 12 && 1 <= d.day <= 31 }

  /** `date.isoformat()`. */
  function IsoDate(d: Date): (s: string)
    requires ValidDate(d)
    ensures |s| == 10 && ':' !in s
  {
    hide Two;
    Two(d.year / 100) + Two(d.year % 100) + "-" + Two(d.month) + "-" + Two(d.day)
  }

  /** A date in the exact ISO layout. */
  function ParseDate(s: string): Option<Date> {
    if |s| != 10 || s[4] != '-' || s[7] != '-' then None else
    var y, m, d := Parse(s[..4]), Parse(s[5..7]), Parse(s[8..]);
    if y.None? || m.None? || d.None? || !ValidDate(Date(y.value, m.value, d.value)) then None
    else Some(Date(y.value, m.value, d.value))
  }

  function IndexOf(s: string, c: char, from: nat): (i: nat)
    requires from <= |s|
    ensures from <= i <= |s| && (i < |s| ==> s[i] == c) && forall j :: from <= j < i ==> s[j] != c
    decreases |s| - from
  {
    if from == |s| || s[from] == c then from else IndexOf(s, c, from + 1)
  }

  /** What a cursor carries: the date and the id of the last row shown. */
  datatype Mark = Mark(date: Date, id: nat)

  function Ordinal(d: Date): int { MonthStart(12 * d.year + d.month - 1) + d.day - 1 }

  function KeyOfMark(m: Mark): Key { Key(Ordinal(m.date), m.id) }

  /** A day that exists. */
  predicate RealDate(d: Date) { ValidDate(d) && d.day <= DaysInMonth(12 * d.year + d.month - 1) }

  /** Days are counted in the order of year, month and day. */
  lemma OrdinalOrder(d: Date, e: Date)
    requires RealDate(d) && RealDate(e)
    ensures Ordinal(d) < Ordinal(e) <==> d.year < e.year || (d.year == e.year && (d.month < e.month || (d.month == e.month && d.day < e.day)))
  {
    var m, n := 12 * d.year + d.month - 1, 12 * e.year + e.month - 1;
    if m < n { MonthsAreOrdered(m, n); }
    if n < m { MonthsAreOrdered(n, m); }
    hide MonthStart, DaysInMonth;
  }

  /** `_encode_cursor`, before its text is put in base 64. */
  function EncodeCursor(m: Mark): string
    requires ValidDate(m.date)
  {
    IsoDate(m.date) + ":" + Decimal(m.id)
  }

  /** `_decode_cursor`, from the decoded text; None is the rejection of an invalid cursor. */
  function DecodeCursor(s: string): Option<Mark> {
    var colon := IndexOf(s, ':', 0);
    if colon == |s| then None else
    var date, id := ParseDate(s[..colon]), Parse(s[colon + 1..]);
    if date.None? || id.None? then None else Some(Mark(date.value, id.value))
  }

  lemma TwoDigits(a: nat, b: nat)
    requires a < 10 && b < 10
    ensures Parse([Digit(a), Digit(b)]) == Some(10 * a + b)
  {
    var s := [Digit(a), Digit(b)];
    assert ParseTo(s, 0) == Some(0);
    assert ParseTo(s, 1) == Some(a);
  }

  lemma FourParts(a: nat, b: nat, c: nat, d: nat)
    requires a < 10 && b < 10 && c < 10 && d < 10
    ensures Parse([Digit(a), Digit(b), Digit(c), Digit(d)]) == Some(1000 * a + 100 * b + 10 * c + d)
  {
    var s := [Digit(a), Digit(b), Digit(c), Digit(d)];
    hide Digit;
    assert ParseTo(s, 0) == Some(0);
    assert ParseTo(s, 1) == Some(a);
    assert ParseTo(s, 2) == Some(10 * a + b);
    assert ParseTo(s, 3) == Some(100 * a + 10 * b + c);
  }

  lemma FourDigits(y: nat)
    requires y <= 9999
    ensures Parse(Two(y / 100) + Two(y % 100)) == Some(y)
  {
    var a, b, c, d := y / 100 / 10, y / 100 % 10, y % 100 / 10, y % 100 % 10;
    hide Digit, Parse;
    assert Two(y / 100) + Two(y % 100) == [Digit(a), Digit(b), Digit(c), Digit(d)];
    FourParts(a, b, c, d);
  }

  lemma IsoRoundTrip(d: Date)
    requires ValidDate(d)
    ensures ParseDate(IsoDate(d)) == Some(d)
  {
    var s := IsoDate(d);
    assert s[..4] == Two(d.year / 100) + Two(d.year % 100);
    assert s[5..7] == Two(d.month);
    assert s[8..] == Two(d.day);
    FourDigits(d.year);
    TwoDigits(d.month / 10, d.month % 10);
    TwoDigits(d.day / 10, d.day % 10);
    hide Parse, Two;
  }

  /** Decoding an encoded cursor gives back its date and id. */
  lemma CursorRoundTrip(m: Mark)
    requires ValidDate(m.date)
    ensures DecodeCursor(EncodeCursor(m)) == Some(m)
  {
    var s := EncodeCursor(m);
    var date, id := IsoDate(m.date), Decimal(m.id);
    assert s[10] == ':' && forall i :: 0 <= i < 10 ==> s[i] == date[i];
    assert IndexOf(s, ':', 0) == 10;
    assert s[..10] == date && s[11..] == id;
    IsoRoundTrip(m.date);
    ParseDecimal(m.id);
    hide IsoDate, Decimal, ParseDate, Parse;
  }

  /** So the next request is cut at the last row of the page before it. */
  lemma NextPageFollows(table: set<Key>, size: nat, m: Mark)
    requires size > 0 && ValidDate(m.date)
    ensures var cursor := DecodeCursor(EncodeCursor(m));
            && cursor.Some?
            && forall k :: k in Paginate(table, size, Some(KeyOfMark(cursor.value))).results ==> k in table && Older(k, KeyOfMark(m))
  {
    CursorRoundTrip(m);
    hide EncodeCursor, DecodeCursor, Ordinal;
    PageSplits(table, size, Some(KeyOfMark(m)));
    hide Paginate;
  }
}
