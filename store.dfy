/**
 An in-memory stand-in for the `expense` table: the rows in table order and
 the operations the route handlers perform on them.
 */
module Store {
  import opened Wrappers
  import opened Dates
  import opened Expenses

  /** How many rows the summary page lists (`limit(5)`). */
  const RecentLimit: nat := 5

  function IdsOf(rs: seq<Expense>): set<int>
  {
    if |rs| == 0 then {} else IdsOf(rs[..|rs| - 1]) + {rs[|rs| - 1].id}
  }

  lemma {:induction false} IdsOfMembers(rs: seq<Expense>, id: int)
    ensures id in IdsOf(rs) <==> exists i :: 0 <= i < |rs| && rs[i].id == id
    decreases |rs|
  {
    if |rs| > 0 {
      var init := rs[..|rs| - 1];
      IdsOfMembers(init, id);
      if id in IdsOf(init) {
        var i :| 0 <= i < |init| && init[i].id == id;
        assert rs[i] == init[i];
      } else if exists i :: 0 <= i < |rs| && rs[i].id == id {
        var i :| 0 <= i < |rs| && rs[i].id == id;
        if i < |init| {
          assert init[i] == rs[i];
        }
      }
    }
  }

  /** The primary key: no two rows share an id, and ids start at 1. */
  ghost predicate ValidIds(rs: seq<Expense>)
  {
    && (forall i, j :: 0 <= i < j < |rs| ==> rs[i].id != rs[j].id)
    && (forall i :: 0 <= i < |rs| ==> rs[i].id >= 1)
  }

  /** The largest id in the table, 0 when it is empty. */
  function MaxId(rs: seq<Expense>): (m: int)
    ensures m >= 0
    ensures forall id :: id in IdsOf(rs) ==> id <= m
    ensures m == 0 || m in IdsOf(rs)
    ensures |rs| == 0 ==> m == 0
  {
    if |rs| == 0 then 0
    else
      var last := rs[|rs| - 1].id;
      var m := MaxId(rs[..|rs| - 1]);
      if last > m then last else m
  }

  /**
   The id a new row gets: one more than the largest id in the table, 1 for
   an empty table (how SQLite chooses the rowid of an INTEGER PRIMARY KEY
   declared without AUTOINCREMENT).
   */
  function NextId(rs: seq<Expense>): (id: int)
    ensures id >= 1 && id !in IdsOf(rs)
    ensures forall x :: x in IdsOf(rs) ==> x < id
    ensures id == 1 || id - 1 in IdsOf(rs)
  {
    MaxId(rs) + 1
  }

  /** The table without the row whose id is `id`, the other rows in their order. */
  function RemoveId(rs: seq<Expense>, id: int): (r: seq<Expense>)
    ensures forall x :: x in r <==> x in rs && x.id != id
    ensures |r| <= |rs|
  {
    if |rs| == 0 then []
    else
      var init := RemoveId(rs[..|rs| - 1], id);
      var last := rs[|rs| - 1];
      assert forall x :: x in rs <==> x in rs[..|rs| - 1] || x == last;
      if last.id == id then init else init + [last]
  }

  lemma {:induction false} RemoveAbsentId(rs: seq<Expense>, id: int)
    requires id !in IdsOf(rs)
    ensures RemoveId(rs, id) == rs
    decreases |rs|
  {
    if |rs| > 0 {
      RemoveAbsentId(rs[..|rs| - 1], id);
      assert rs == rs[..|rs| - 1] + [rs[|rs| - 1]];
    }
  }

  /** With unique ids, deleting an id that is present removes exactly one row. */
  lemma {:induction false} RemovePresentId(rs: seq<Expense>, id: int)
    requires ValidIds(rs) && id in IdsOf(rs)
    ensures |RemoveId(rs, id)| == |rs| - 1
    decreases |rs|
  {
    var init, last := rs[..|rs| - 1], rs[|rs| - 1];
    assert ValidIds(init);
    if last.id == id {
      IdsOfMembers(init, id);
      RemoveAbsentId(init, id);
    } else {
      RemovePresentId(init, id);
    }
  }

  /**
   Deleting filters each part of the table separately, so the rows that stay
   keep their relative order.
   */
  lemma {:induction false} RemoveIdAppend(a: seq<Expense>, b: seq<Expense>, id: int)
    ensures RemoveId(a + b, id) == RemoveId(a, id) + RemoveId(b, id)
    decreases |b|
  {
    if |b| == 0 {
      assert a + b == a;
    } else {
      assert (a + b)[..|a + b| - 1] == a + b[..|b| - 1];
      RemoveIdAppend(a, b[..|b| - 1], id);
    }
  }

  /** Deleting keeps a row whose id differs and drops one whose id matches. */
  lemma RemoveIdSingle(x: Expense, id: int)
    ensures RemoveId([x], id) == if x.id == id then [] else [x]
  {
    assert [x][..0] == [];
  }

  /** Deleting the row just added gives back the table as it was. */
  lemma AddThenDeleteRestores(rs: seq<Expense>, amount: int, category: string, date: Date, description: string)
    ensures var id := NextId(rs);
      RemoveId(rs + [Expense(id, amount, category, date, description)], id) == rs
  {
    var id := NextId(rs);
    var rs' := rs + [Expense(id, amount, category, date, description)];
    assert rs'[..|rs'| - 1] == rs;
    RemoveAbsentId(rs, id);
  }

  /**
   Ids can come back: after the newest row is deleted, the next row added
   gets the deleted row's id again.
   */
  lemma IdReusedAfterDeletingNewest(rs: seq<Expense>, amount: int, category: string, date: Date, description: string)
    ensures var id := NextId(rs);
      NextId(RemoveId(rs + [Expense(id, amount, category, date, description)], id)) == id
  {
    AddThenDeleteRestores(rs, amount, category, date, description);
  }

  /** Newest first: no row is older than a row after it (`order_by(date.desc())`). */
  predicate NewestFirst(rs: seq<Expense>)
  {
    forall i, j :: 0 <= i < j < |rs| ==> !DayBefore(rs[i].date, rs[j].date)
  }

  /** One step of the sort: put `e` before the first row that is not newer than it. */
  function InsertByDate(e: Expense, rs: seq<Expense>): (r: seq<Expense>)
    ensures multiset(r) == multiset(rs) + multiset{e}
  {
    if |rs| == 0 || !DayBefore(e.date, rs[0].date) then [e] + rs
    else
      assert rs == [rs[0]] + rs[1..];
      [rs[0]] + InsertByDate(e, rs[1..])
  }

  lemma {:induction false} InsertKeepsNewestFirst(e: Expense, rs: seq<Expense>)
    requires NewestFirst(rs)
    ensures NewestFirst(InsertByDate(e, rs))
    decreases |rs|
  {
    if |rs| > 0 && DayBefore(e.date, rs[0].date) {
      var tail := InsertByDate(e, rs[1..]);
      InsertKeepsNewestFirst(e, rs[1..]);
      var r := InsertByDate(e, rs);
      assert r == [rs[0]] + tail;
      forall j | 0 < j < |r|
        ensures !DayBefore(r[0].date, r[j].date)
      {
        assert r[j] in multiset(tail);
        if r[j] != e {
          assert r[j] in multiset(rs[1..]);
          var m :| 0 <= m < |rs[1..]| && rs[1..][m] == r[j];
          assert rs[m + 1] == r[j];
        }
      }
      assert forall i, j :: 0 < i < j < |r| ==> r[i] == tail[i - 1] && r[j] == tail[j - 1];
    }
  }

  /** The rows sorted newest first; the order among rows of the same day is not specified. */
  function SortNewestFirst(rs: seq<Expense>): (r: seq<Expense>)
    ensures NewestFirst(r)
    ensures multiset(r) == multiset(rs)
  {
    if |rs| == 0 then []
    else
      assert rs == [rs[0]] + rs[1..];
      InsertKeepsNewestFirst(rs[0], SortNewestFirst(rs[1..]));
      InsertByDate(rs[0], SortNewestFirst(rs[1..]))
  }

  /** The SQL `SUM` aggregate: NULL over an empty table. */
  function SqlSum(rs: seq<Expense>): (r: Option<int>)
    ensures r.None? <==> |rs| == 0
    ensures r.Some? ==> r.value == Total(rs)
  {
    if |rs| == 0 then None else Some(Total(rs))
  }

  /**
   The first `n` rows of the newest-first order (`order_by(date.desc()).limit(n)`):
   as many rows as the table has, up to `n`, newest first, and no row left
   out is newer than a row shown.
   */
  function MostRecent(rs: seq<Expense>, n: nat): (r: seq<Expense>)
    ensures |r| == if |rs| < n then |rs| else n
    ensures NewestFirst(r) && multiset(r) <= multiset(rs)
    ensures forall i, y :: 0 <= i < |r| && y in multiset(rs) - multiset(r) ==> !DayBefore(r[i].date, y.date)
  {
    var sorted := SortNewestFirst(rs);
    assert |sorted| == |multiset(sorted)| == |rs|;
    var k := if |sorted| < n then |sorted| else n;
    NewestPrefix(sorted, k);
    sorted[..k]
  }

  class ExpenseStore {
    /** The rows, in the order the table returns them unsorted. */
    var records: seq<Expense>

    ghost predicate Valid()
      reads this
    {
      ValidIds(records)
    }

    constructor ()
      ensures Valid() && records == []
    {
      records := [];
    }

    /**
     `add_expense()` after the form has been parsed: insert a row under a
     fresh id and commit.
     */
    method Add(amount: int, category: string, date: Date, description: string) returns (id: int)
      requires Valid()
      modifies this
      ensures Valid()
      ensures id == NextId(old(records)) && id !in IdsOf(old(records))
      ensures records == old(records) + [Expense(id, amount, category, date, description)]
    {
      id := NextId(records);
      forall i | 0 <= i < |records|
        ensures records[i].id != id
      {
        IdsOfMembers(records, records[i].id);
      }
      records := records + [Expense(id, amount, category, date, description)];
    }

    /**
     `delete_expense(id)`: remove the row with that id, or report that there
     is none (the 404 of `get_or_404`) and change nothing.
     */
    method Delete(id: int) returns (found: bool)
      requires Valid()
      modifies this
      ensures Valid()
      ensures found <==> id in IdsOf(old(records))
      ensures records == RemoveId(old(records), id)
      ensures found ==> |records| == |old(records)| - 1
      ensures !found ==> records == old(records)
      ensures forall r :: r in records ==> r.id != id
    {
      IdsOfMembers(records, id);
      found := exists i :: 0 <= i < |records| && records[i].id == id;
      if found {
        RemovePresentId(records, id);
      } else {
        RemoveAbsentId(records, id);
      }
      RemoveKeepsValid(records, id);
      records := RemoveId(records, id);
    }

    /** `Expense.query.count()`. */
    function Count(): (n: nat)
      reads this
      ensures n == |records|
      ensures Valid() ==> n == |IdsOf(records)|
    {
      IdsOfCount(records);
      |records|
    }

    /** `db.session.query(db.func.sum(Expense.amount)).scalar() or 0`. */
    function TotalExpenses(): (total: int)
      reads this
      ensures total == Total(records)
    {
      match SqlSum(records)
      case None => 0
      case Some(s) => s
    }

    /** `view_expenses()`: every row, newest first. */
    function AllNewestFirst(): (r: seq<Expense>)
      reads this
      ensures NewestFirst(r) && multiset(r) == multiset(records)
    {
      SortNewestFirst(records)
    }

    /** The summary page's recent list. */
    function Recent(): (r: seq<Expense>)
      reads this
      ensures |r| == if |records| < RecentLimit then |records| else RecentLimit
      ensures NewestFirst(r) && multiset(r) <= multiset(records)
      ensures forall i, y :: 0 <= i < |r| && y in multiset(records) - multiset(r) ==> !DayBefore(r[i].date, y.date)
    {
      MostRecent(records, RecentLimit)
    }
  }

  /**
   Cutting a newest-first list after `k` rows: the rows cut off are what the
   prefix lacks, and none of them is newer than a row kept.
   */
  lemma NewestPrefix(s: seq<Expense>, k: nat)
    requires NewestFirst(s) && k <= |s|
    ensures NewestFirst(s[..k]) && multiset(s[..k]) <= multiset(s)
    ensures forall i, y :: 0 <= i < |s[..k]| && y in multiset(s) - multiset(s[..k]) ==> !DayBefore(s[..k][i].date, y.date)
  {
    assert s == s[..k] + s[k..];
    assert multiset(s) - multiset(s[..k]) == multiset(s[k..]);
    forall i, y | 0 <= i < k && y in multiset(s[k..])
      ensures !DayBefore(s[i].date, y.date)
    {
      var j :| 0 <= j < |s[k..]| && s[k..][j] == y;
      assert s[k + j] == y;
    }
  }

  /** The number of distinct ids is the number of rows. */
  lemma {:induction false} IdsOfCount(rs: seq<Expense>)
    ensures ValidIds(rs) ==> |IdsOf(rs)| == |rs|
    decreases |rs|
  {
    if |rs| > 0 && ValidIds(rs) {
      var init := rs[..|rs| - 1];
      assert ValidIds(init);
      IdsOfCount(init);
      IdsOfMembers(init, rs[|rs| - 1].id);
    }
  }

  /** Deleting a row keeps the ids unique and positive. */
  lemma RemoveKeepsValid(rs: seq<Expense>, id: int)
    requires ValidIds(rs)
    ensures ValidIds(RemoveId(rs, id))
  {
    var r := RemoveId(rs, id);
    forall i, j | 0 <= i < j < |r|
      ensures r[i].id != r[j].id
    {
      RemovedIdsDistinct(rs, id, i, j);
    }
    forall i | 0 <= i < |r|
      ensures r[i].id >= 1
    {
      assert r[i] in rs;
    }
  }

  /** Two rows left after a deletion still have distinct ids. */
  lemma {:induction false} RemovedIdsDistinct(rs: seq<Expense>, id: int, i: int, j: int)
    requires ValidIds(rs)
    requires 0 <= i < j < |RemoveId(rs, id)|
    ensures RemoveId(rs, id)[i].id != RemoveId(rs, id)[j].id
    decreases |rs|
  {
    var init, last := rs[..|rs| - 1], rs[|rs| - 1];
    assert ValidIds(init);
    var r, r' := RemoveId(rs, id), RemoveId(init, id);
    if last.id == id {
      RemovedIdsDistinct(init, id, i, j);
    } else if j < |r'| {
      RemovedIdsDistinct(init, id, i, j);
    } else {
      assert r[j] == last;
      assert r[i] in init;
      var k :| 0 <= k < |init| && init[k] == r[i];
      assert rs[k] == r[i];
    }
  }
}
