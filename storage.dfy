/**
 * The `dns_queries` table of internal/storage/db.go as an in-memory, append-only
 * log of rows, with the schema set-up (`migrate`/`OpenDb`), the insert, the two
 * read-only queries and the SQL aggregation behind `GetMostQueriedDomains`.
 */
module Storage {
  import opened Wrappers
  import opened Text

  /** Go's `uint16`: the DNS transaction id stored in the `event` column. */
  type uint16 = x: int | 0 <= x < 0x1_0000

  /** One row of `dns_queries`; `id` is the AUTOINCREMENT key. The timestamp is kept as the stored text. */
  datatype DnsEntry = DnsEntry(
    id: int,
    timestamp: string,
    sourceIp: string,
    queryName: string,
    queryType: string,
    cnamePath: string,
    responseIps: string,
    requestType: string,
    txnId: uint16)

  /** One result row of the most-queried-domains report. */
  datatype DnsMostQueriedDomain = DnsMostQueriedDomain(queryName: string, events: string, count: int)

  /** What SQLite reports when a statement runs before the table exists. */
  datatype StoreError = NoSuchTable

  /** The `request_type` text of a query row; the aggregation keeps only these. */
  const QueryRole := "query"

  predicate IdsIncreasing(rows: seq<DnsEntry>)
  {
    forall i, j :: 0 <= i < j < |rows| ==> rows[i].id < rows[j].id
  }

  /** A database file: whether the schema exists, its rows in insertion order, and the next AUTOINCREMENT id. */
  class DnsStore {
    var tableExists: bool
    var rows: seq<DnsEntry>
    var nextId: int

    predicate Valid()
      reads this
    {
      && nextId >= 1
      && IdsIncreasing(rows)
      && (forall k :: 0 <= k < |rows| ==> 1 <= rows[k].id < nextId)
      && (!tableExists ==> rows == [])
    }

    /** A freshly created, empty database file: no table yet. */
    constructor ()
      ensures Valid() && !tableExists && rows == [] && nextId == 1
    {
      tableExists := false;
      rows := [];
      nextId := 1;
    }

    /** `CREATE TABLE IF NOT EXISTS` plus the two `CREATE INDEX IF NOT EXISTS`: creates the schema once, keeps every row. */
    method Migrate()
      requires Valid()
      modifies this
      ensures Valid() && tableExists
      ensures rows == old(rows) && nextId == old(nextId)
    {
      tableExists := true;
    }

    /** Opening a handle on the file and migrating it; on an existing store nothing but the schema flag is touched. */
    method OpenDb()
      requires Valid()
      modifies this
      ensures Valid() && tableExists
      ensures rows == old(rows) && nextId == old(nextId)
    {
      Migrate();
    }

    /** `INSERT INTO dns_queries`: appends exactly one row holding the eight values verbatim. */
    method InsertDnsEntry(
      time: string, srcIp: string, queryName: string, queryType: string,
      cnamePath: string, responseIps: string, responseType: string, eventNum: uint16)
      returns (err: Option<StoreError>)
      requires Valid()
      modifies this
      ensures Valid() && tableExists == old(tableExists)
      ensures err.None? <==> old(tableExists)
      ensures err.None? ==>
        && rows == old(rows) + [DnsEntry(old(nextId), time, srcIp, queryName, queryType,
                                         cnamePath, responseIps, responseType, eventNum)]
        && nextId == old(nextId) + 1
      ensures err.Some? ==> err == Some(NoSuchTable) && rows == old(rows) && nextId == old(nextId)
    {
      if !tableExists {
        return Some(NoSuchTable);
      }
      rows := rows + [DnsEntry(nextId, time, srcIp, queryName, queryType,
                               cnamePath, responseIps, responseType, eventNum)];
      nextId := nextId + 1;
      err := None;
    }

    /** `SELECT * from dns_queries`, read row by row: every stored row, ids strictly increasing. */
    method GetDnsEntries() returns (r: Result<seq<DnsEntry>, StoreError>)
      requires Valid()
      ensures !tableExists ==> r == Failure(NoSuchTable)
      ensures tableExists ==> r == Success(rows)
      ensures r.Success? ==> IdsIncreasing(r.value)
    {
      if !tableExists {
        return Failure(NoSuchTable);
      }
      var de: seq<DnsEntry> := [];
      var i := 0;
      while i < |rows|
        invariant 0 <= i <= |rows|
        invariant de == rows[..i]
      {
        de := de + [rows[i]];
        i := i + 1;
      }
      assert rows[..i] == rows;
      r := Success(de);
    }

    /** The most-queried-domains report: one of the results the SQL statement allows. */
    method GetMostQueriedDomains() returns (r: Result<seq<DnsMostQueriedDomain>, StoreError>)
      requires Valid()
      ensures !tableExists ==> r == Failure(NoSuchTable)
      ensures tableExists ==> r.Success? && IsMostQueried(rows, r.value)
    {
      if !tableExists {
        return Failure(NoSuchTable);
      }
      MostQueriedDomainsMeetsSpec(rows);
      r := Success(MostQueriedDomains(rows));
    }
  }

  // ---------------------------------------------------------------------------
  // The aggregation: WHERE request_type = 'query' GROUP BY query_name,
  // COUNT(*), GROUP_CONCAT(event), ORDER BY count DESC.
  // ---------------------------------------------------------------------------

  /** `WHERE request_type = 'query'`, keeping row order. */
  function QueryRows(rows: seq<DnsEntry>): (q: seq<DnsEntry>)
    ensures |q| <= |rows|
    ensures forall e :: e in q <==> e in rows && e.requestType == QueryRole
  {
    if |rows| == 0 then []
    else
      var last := rows[|rows| - 1];
      QueryRows(rows[..|rows| - 1]) + (if last.requestType == QueryRole then [last] else [])
  }

  /** The rows of one `query_name` group, keeping row order. */
  function RowsNamed(q: seq<DnsEntry>, name: string): (g: seq<DnsEntry>)
    ensures |g| <= |q|
    ensures forall e :: e in g <==> e in q && e.queryName == name
  {
    if |q| == 0 then []
    else
      var last := q[|q| - 1];
      RowsNamed(q[..|q| - 1], name) + (if last.queryName == name then [last] else [])
  }

  /** The `event` values of some rows as SQLite renders them inside `GROUP_CONCAT`. */
  function EventTexts(g: seq<DnsEntry>): (t: seq<string>)
    ensures |t| == |g|
    ensures forall k :: 0 <= k < |g| ==> CanonicalDecimal(t[k]) && DigitsValue(t[k]) == g[k].txnId
  {
    DecimalValueAll();
    seq(|g|, k requires 0 <= k < |g| => Decimal(g[k].txnId))
  }

  /** The distinct `query_name` values, in order of first occurrence. */
  function DistinctNames(q: seq<DnsEntry>): (d: seq<string>)
    ensures forall i, j :: 0 <= i < j < |d| ==> d[i] != d[j]
    ensures forall n :: n in d <==> exists k :: 0 <= k < |q| && q[k].queryName == n
  {
    if |q| == 0 then []
    else
      var d := DistinctNames(q[..|q| - 1]);
      var n := q[|q| - 1].queryName;
      assert forall k :: 0 <= k < |q| - 1 ==> q[..|q| - 1][k] == q[k];
      if n in d then d else d + [n]
  }

  /** The report row of the group named `n`. */
  function GroupOf(q: seq<DnsEntry>, n: string): DnsMostQueriedDomain
  {
    var g := RowsNamed(q, n);
    DnsMostQueriedDomain(n, Join(EventTexts(g), ","), |g|)
  }

  function Groups(q: seq<DnsEntry>, names: seq<string>): (gs: seq<DnsMostQueriedDomain>)
    ensures |gs| == |names|
    ensures forall i :: 0 <= i < |names| ==> gs[i] == GroupOf(q, names[i])
  {
    seq(|names|, i requires 0 <= i < |names| => GroupOf(q, names[i]))
  }

  predicate CountsDescending(s: seq<DnsMostQueriedDomain>)
  {
    forall i, j :: 0 <= i < j < |s| ==> s[i].count >= s[j].count
  }

  predicate NamesUnique(s: seq<DnsMostQueriedDomain>)
  {
    forall i, j :: 0 <= i < j < |s| ==> s[i].queryName != s[j].queryName
  }

  /** Places `x` before the first row whose count it reaches. */
  function InsertByCount(x: DnsMostQueriedDomain, s: seq<DnsMostQueriedDomain>): (r: seq<DnsMostQueriedDomain>)
    ensures |r| == |s| + 1
    ensures multiset(r) == multiset(s) + multiset{x}
  {
    if |s| == 0 then [x]
    else if x.count >= s[0].count then [x] + s
    else
      assert s == [s[0]] + s[1..];
      [s[0]] + InsertByCount(x, s[1..])
  }

  lemma InsertByCountMembers(x: DnsMostQueriedDomain, s: seq<DnsMostQueriedDomain>)
    ensures forall e :: e in InsertByCount(x, s) <==> e == x || e in s
  {
    var r := InsertByCount(x, s);
    forall e ensures e in r <==> e == x || e in s {
      assert e in r <==> e in multiset(r);
      assert e in s <==> e in multiset(s);
    }
  }

  lemma {:induction false} InsertByCountDescending(x: DnsMostQueriedDomain, s: seq<DnsMostQueriedDomain>)
    requires CountsDescending(s)
    ensures CountsDescending(InsertByCount(x, s))
  {
    if |s| > 0 && x.count < s[0].count {
      var rest := InsertByCount(x, s[1..]);
      InsertByCountDescending(x, s[1..]);
      InsertByCountMembers(x, s[1..]);
      var r := [s[0]] + rest;
      forall i, j | 0 <= i < j < |r| ensures r[i].count >= r[j].count {
        if i == 0 {
          assert r[j] in rest;
          if r[j] != x {
            var k :| 0 <= k < |s[1..]| && s[1..][k] == r[j];
            assert s[k + 1] == r[j];
          }
        } else {
          assert r[i] == rest[i - 1] && r[j] == rest[j - 1];
        }
      }
    }
  }

  lemma {:induction false} InsertByCountUnique(x: DnsMostQueriedDomain, s: seq<DnsMostQueriedDomain>)
    requires NamesUnique(s)
    requires forall k :: 0 <= k < |s| ==> s[k].queryName != x.queryName
    ensures NamesUnique(InsertByCount(x, s))
  {
    if |s| > 0 && x.count < s[0].count {
      var rest := InsertByCount(x, s[1..]);
      InsertByCountUnique(x, s[1..]);
      InsertByCountMembers(x, s[1..]);
      var r := [s[0]] + rest;
      forall i, j | 0 <= i < j < |r| ensures r[i].queryName != r[j].queryName {
        if i == 0 {
          assert r[j] in rest;
          if r[j] != x {
            var k :| 0 <= k < |s[1..]| && s[1..][k] == r[j];
            assert s[k + 1] == r[j];
          }
        } else {
          assert r[i] == rest[i - 1] && r[j] == rest[j - 1];
        }
      }
    }
  }

  /** `ORDER BY count DESC` as a stable insertion sort. */
  function SortByCountDesc(s: seq<DnsMostQueriedDomain>): (r: seq<DnsMostQueriedDomain>)
    ensures |r| == |s|
    ensures multiset(r) == multiset(s)
  {
    if |s| == 0 then []
    else
      assert s == [s[0]] + s[1..];
      InsertByCount(s[0], SortByCountDesc(s[1..]))
  }

  lemma SortByCountDescMembers(s: seq<DnsMostQueriedDomain>)
    ensures forall e :: e in SortByCountDesc(s) <==> e in s
  {
    var r := SortByCountDesc(s);
    forall e ensures e in r <==> e in s {
      assert e in r <==> e in multiset(r);
      assert e in s <==> e in multiset(s);
    }
  }

  /** The sorted report has non-increasing counts. */
  lemma {:induction false} SortByCountDescDescending(s: seq<DnsMostQueriedDomain>)
    ensures CountsDescending(SortByCountDesc(s))
  {
    if |s| > 0 {
      SortByCountDescDescending(s[1..]);
      InsertByCountDescending(s[0], SortByCountDesc(s[1..]));
    }
  }

  lemma {:induction false} SortByCountDescUnique(s: seq<DnsMostQueriedDomain>)
    requires NamesUnique(s)
    ensures NamesUnique(SortByCountDesc(s))
  {
    if |s| > 0 {
      var tail := s[1..];
      assert NamesUnique(tail) by {
        forall i, j | 0 <= i < j < |tail| ensures tail[i].queryName != tail[j].queryName {
          assert tail[i] == s[i + 1] && tail[j] == s[j + 1];
        }
      }
      SortByCountDescUnique(tail);
      SortByCountDescMembers(tail);
      var sorted := SortByCountDesc(tail);
      forall k | 0 <= k < |sorted| ensures sorted[k].queryName != s[0].queryName {
        assert sorted[k] in tail;
        var m :| 0 <= m < |tail| && tail[m] == sorted[k];
        assert s[m + 1] == sorted[k];
      }
      InsertByCountUnique(s[0], sorted);
    }
  }

  /** The report as this model computes it: groups in first-occurrence order, then a stable sort by count. */
  function MostQueriedDomains(rows: seq<DnsEntry>): (r: seq<DnsMostQueriedDomain>)
    ensures |r| == |DistinctNames(QueryRows(rows))|
  {
    var q := QueryRows(rows);
    SortByCountDesc(Groups(q, DistinctNames(q)))
  }

  /**
   * `e` is a correct report row for the query rows `q`: it names a domain some
   * query row has, carries that group's `COUNT(*)`, and its `events` text holds
   * exactly that group's `event` values (`GROUP_CONCAT`), in some order.
   */
  ghost predicate Describes(q: seq<DnsEntry>, e: DnsMostQueriedDomain)
  {
    && (exists k :: 0 <= k < |q| && q[k].queryName == e.queryName)
    && e.count == |RowsNamed(q, e.queryName)|
    && multiset(Split(e.events, ',')) == multiset(EventTexts(RowsNamed(q, e.queryName)))
  }

  /** Every query row's domain has a report row. */
  ghost predicate RowsCovered(q: seq<DnsEntry>, out: seq<DnsMostQueriedDomain>)
  {
    forall k :: 0 <= k < |q| ==> exists i :: 0 <= i < |out| && out[i].queryName == q[k].queryName
  }

  /** The allowed reports over rows that are all query rows already. */
  ghost predicate IsReportOf(q: seq<DnsEntry>, out: seq<DnsMostQueriedDomain>)
  {
    && NamesUnique(out)
    && (forall i :: 0 <= i < |out| ==> Describes(q, out[i]))
    && RowsCovered(q, out)
    && CountsDescending(out)
  }

  /**
   * Every result the SQL statement may return: one row per distinct `query_name`
   * of the query rows, its count and the multiset of its `event` values, rows
   * ordered by count descending; the order of ties and of the concatenated
   * events is left open, as SQLite leaves it.
   */
  ghost predicate IsMostQueried(rows: seq<DnsEntry>, out: seq<DnsMostQueriedDomain>)
  {
    IsReportOf(QueryRows(rows), out)
  }

  /** The group of a domain that occurs among the query rows is described correctly. */
  lemma GroupDescribes(q: seq<DnsEntry>, n: string)
    requires exists k :: 0 <= k < |q| && q[k].queryName == n
    ensures Describes(q, GroupOf(q, n))
  {
    var k :| 0 <= k < |q| && q[k].queryName == n;
    assert q[k] in RowsNamed(q, n);
    var t := EventTexts(RowsNamed(q, n));
    forall i | 0 <= i < |t| ensures Free(t[i], ',') {
      DecimalFree(RowsNamed(q, n)[i].txnId, ',');
    }
    SplitJoin(t, ',');
  }

  /** The computed report is one of the results the SQL statement allows. */
  lemma MostQueriedDomainsMeetsSpec(rows: seq<DnsEntry>)
    ensures IsMostQueried(rows, MostQueriedDomains(rows))
  {
    var q := QueryRows(rows);
    var d := DistinctNames(q);
    var g := Groups(q, d);
    var out := MostQueriedDomains(rows);
    assert NamesUnique(g);
    SortByCountDescMembers(g);
    SortByCountDescDescending(g);
    SortByCountDescUnique(g);
    forall i | 0 <= i < |out| ensures Describes(q, out[i]) {
      assert out[i] in g;
      var p :| 0 <= p < |g| && g[p] == out[i];
      assert d[p] in d;
      GroupDescribes(q, d[p]);
    }
    forall k | 0 <= k < |q|
      ensures exists i :: 0 <= i < |out| && out[i].queryName == q[k].queryName
    {
      assert q[k].queryName in d;
      var p :| 0 <= p < |d| && d[p] == q[k].queryName;
      assert g[p] in out;
      var i :| 0 <= i < |out| && out[i] == g[p];
    }
  }

  /** An empty table has an empty report. */
  lemma EmptyTableNoGroups(out: seq<DnsMostQueriedDomain>)
    ensures IsMostQueried([], out) <==> out == []
    ensures MostQueriedDomains([]) == []
  {
    assert QueryRows([]) == [];
    if out != [] {
      assert !Describes([], out[0]);
    }
  }

  lemma {:induction false} QueryRowsNone(rows: seq<DnsEntry>)
    requires forall k :: 0 <= k < |rows| ==> rows[k].requestType != QueryRole
    ensures QueryRows(rows) == []
  {
    if |rows| > 0 {
      QueryRowsNone(rows[..|rows| - 1]);
    }
  }

  /** A table holding no query row, only responses say, has an empty report too. */
  lemma NoQueryRowsNoGroups(rows: seq<DnsEntry>, out: seq<DnsMostQueriedDomain>)
    requires forall k :: 0 <= k < |rows| ==> rows[k].requestType != QueryRole
    ensures IsMostQueried(rows, out) <==> out == []
    ensures MostQueriedDomains(rows) == []
  {
    QueryRowsNone(rows);
    OnlyQueryRowsCount(rows, out);
    EmptyTableNoGroups(out);
  }

  lemma {:induction false} QueryRowsIdempotent(rows: seq<DnsEntry>)
    ensures QueryRows(QueryRows(rows)) == QueryRows(rows)
  {
    if |rows| > 0 {
      var front := rows[..|rows| - 1];
      var last := rows[|rows| - 1];
      QueryRowsIdempotent(front);
      QueryRowsAppend(QueryRows(front), if last.requestType == QueryRole then [last] else []);
    }
  }

  lemma {:induction false} QueryRowsAppend(a: seq<DnsEntry>, b: seq<DnsEntry>)
    ensures QueryRows(a + b) == QueryRows(a) + QueryRows(b)
  {
    if |b| == 0 {
      assert a + b == a;
    } else {
      assert (a + b)[..|a + b| - 1] == a + b[..|b| - 1];
      QueryRowsAppend(a, b[..|b| - 1]);
    }
  }

  /** Response rows never contribute: the report depends on the query rows alone. */
  lemma OnlyQueryRowsCount(rows: seq<DnsEntry>, out: seq<DnsMostQueriedDomain>)
    ensures IsMostQueried(rows, out) <==> IsMostQueried(QueryRows(rows), out)
  {
    QueryRowsIdempotent(rows);
  }

  /** Appending a row whose role is not "query" changes neither the allowed reports nor the computed one. */
  lemma {:induction false} ResponseRowChangesNothing(rows: seq<DnsEntry>, e: DnsEntry, out: seq<DnsMostQueriedDomain>)
    requires e.requestType != QueryRole
    ensures IsMostQueried(rows + [e], out) <==> IsMostQueried(rows, out)
    ensures MostQueriedDomains(rows + [e]) == MostQueriedDomains(rows)
  {
    assert (rows + [e])[..|rows|] == rows;
    assert QueryRows(rows + [e]) == QueryRows(rows);
  }

  // ---------------------------------------------------------------------------
  // The counts of any allowed report sum to the number of query rows.
  // ---------------------------------------------------------------------------

  function TotalCount(s: seq<DnsMostQueriedDomain>): int
  {
    if |s| == 0 then 0 else TotalCount(s[..|s| - 1]) + s[|s| - 1].count
  }

  /** The number of rows of `q` named by some element of `d`, name by name. */
  function CountIn(q: seq<DnsEntry>, d: seq<string>): int
  {
    if |d| == 0 then 0 else CountIn(q, d[..|d| - 1]) + |RowsNamed(q, d[|d| - 1])|
  }

  function NameList(s: seq<DnsMostQueriedDomain>): (d: seq<string>)
    ensures |d| == |s|
    ensures forall i :: 0 <= i < |s| ==> d[i] == s[i].queryName
  {
    seq(|s|, i requires 0 <= i < |s| => s[i].queryName)
  }

  lemma {:induction false} TotalCountIsCountIn(q: seq<DnsEntry>, s: seq<DnsMostQueriedDomain>)
    requires forall i :: 0 <= i < |s| ==> s[i].count == |RowsNamed(q, s[i].queryName)|
    ensures TotalCount(s) == CountIn(q, NameList(s))
  {
    if |s| > 0 {
      var front := s[..|s| - 1];
      TotalCountIsCountIn(q, front);
      assert NameList(s)[..|s| - 1] == NameList(front);
    }
  }

  lemma {:induction false} CountInEmpty(d: seq<string>)
    ensures CountIn([], d) == 0
  {
    if |d| > 0 {
      CountInEmpty(d[..|d| - 1]);
    }
  }

  lemma {:induction false} CountInSnoc(q: seq<DnsEntry>, e: DnsEntry, d: seq<string>)
    requires forall i, j :: 0 <= i < j < |d| ==> d[i] != d[j]
    ensures CountIn(q + [e], d) == CountIn(q, d) + (if e.queryName in d then 1 else 0)
  {
    if |d| > 0 {
      var front := d[..|d| - 1];
      var n := d[|d| - 1];
      CountInSnoc(q, e, front);
      assert (q + [e])[..|q|] == q;
      assert e.queryName in d <==> e.queryName in front || e.queryName == n;
      assert n !in front;
    }
  }

  lemma {:induction false} CountInCovers(q: seq<DnsEntry>, d: seq<string>)
    requires forall i, j :: 0 <= i < j < |d| ==> d[i] != d[j]
    requires forall k :: 0 <= k < |q| ==> q[k].queryName in d
    ensures CountIn(q, d) == |q|
  {
    if |q| == 0 {
      CountInEmpty(d);
    } else {
      var front := q[..|q| - 1];
      var e := q[|q| - 1];
      assert front + [e] == q;
      assert forall k :: 0 <= k < |front| ==> front[k] == q[k];
      CountInCovers(front, d);
      CountInSnoc(front, e, d);
    }
  }

  lemma {:induction false} ReportCountsSum(q: seq<DnsEntry>, out: seq<DnsMostQueriedDomain>)
    requires NamesUnique(out)
    requires forall i :: 0 <= i < |out| ==> out[i].count == |RowsNamed(q, out[i].queryName)|
    requires RowsCovered(q, out)
    ensures TotalCount(out) == |q|
  {
    var d := NameList(out);
    TotalCountIsCountIn(q, out);
    forall k | 0 <= k < |q| ensures q[k].queryName in d {
      var i :| 0 <= i < |out| && out[i].queryName == q[k].queryName;
      assert d[i] == q[k].queryName;
    }
    CountInCovers(q, d);
  }

  /** The counts of every allowed report add up to the number of query rows. */
  lemma CountsSumToQueryRows(rows: seq<DnsEntry>, out: seq<DnsMostQueriedDomain>)
    requires IsMostQueried(rows, out)
    ensures TotalCount(out) == |QueryRows(rows)|
  {
    var q := QueryRows(rows);
    forall i | 0 <= i < |out| ensures out[i].count == |RowsNamed(q, out[i].queryName)| {
      assert Describes(q, out[i]);
    }
    ReportCountsSum(q, out);
  }

  /** Re-opening a store that already holds a row keeps that row (the idempotent-open scenario). */
  method ReopenKeepsRows() returns (entries: Result<seq<DnsEntry>, StoreError>)
    ensures entries == Success([DnsEntry(1, "2024-01-01T00:00:00Z", "192.168.0.1", "example.com", "A", "", "1.2.3.4", "query", 1)])
  {
    var store := new DnsStore();
    store.OpenDb();
    var err := store.InsertDnsEntry("2024-01-01T00:00:00Z", "192.168.0.1", "example.com", "A", "", "1.2.3.4", "query", 1);
    assert [] + [store.rows[0]] == [store.rows[0]];
    store.OpenDb();
    entries := store.GetDnsEntries();
  }
}
