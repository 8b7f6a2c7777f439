/** Bounded reads of paged sources: row budget, page cap, deduplication and partial failure. */
module Paging {
  import opened Wrappers

  const PAGE_SIZE := 200
  const MAXIMUM_ROWS := 1000
  const MAXIMUM_PAGES := 8

  /** One page request: the decoded rows or a failure. */
  datatype Reply<Row> = Page(rows: seq<Row>) | Failure(reason: string)

  /** The error beside the rows; `Truncated` is ErrResultTruncated. */
  datatype PageError = Truncated | TimedOut | PageFailed(page: nat, gathered: nat, reason: string)

  /** How often a page request is made is visible as `requests`. */
  datatype Outcome<Row> = Outcome(rows: seq<Row>, error: Option<PageError>, requests: nat)

  /**
   The upstream: `fetch(page, offset, size)` answers a page request, `expired(page)` says
   whether the page context is done before it, and `fingerprint` is the row's JSON text.
   */
  datatype Source<!Row> = Source(fetch: (nat, nat, nat) -> Reply<Row>, expired: nat -> bool, fingerprint: Row -> string)

  function Bound(value: int, fallback: int, maximum: int): int {
    if value < 1 then fallback else if value < maximum then value else maximum
  }

  function RowBudget(maximum: int): (b: nat)
    ensures 1 <= b <= MAXIMUM_ROWS
  {
    Bound(maximum, 1, MAXIMUM_ROWS)
  }

  function PageSizeFor(budget: nat): nat {
    if budget < PAGE_SIZE then budget else PAGE_SIZE
  }

  // ----- first occurrences -----

  predicate Seen<Row>(fingerprint: Row -> string, rows: seq<Row>, row: Row) {
    exists i | 0 <= i < |rows| :: fingerprint(rows[i]) == fingerprint(row)
  }

  predicate Distinct<Row>(fingerprint: Row -> string, rows: seq<Row>) {
    forall i, j | 0 <= i < j < |rows| :: fingerprint(rows[i]) != fingerprint(rows[j])
  }

  /** `rows` followed by the first occurrence of each row of `more` that `rows` lacks. */
  function Extend<Row>(fingerprint: Row -> string, rows: seq<Row>, more: seq<Row>): seq<Row>
    decreases more
  {
    if more == [] then rows
    else if Seen(fingerprint, rows, more[0]) then Extend(fingerprint, rows, more[1..])
    else Extend(fingerprint, rows + [more[0]], more[1..])
  }

  function Dedup<Row>(fingerprint: Row -> string, rows: seq<Row>): seq<Row> {
    Extend(fingerprint, [], rows)
  }

  function Take<Row>(rows: seq<Row>, n: nat): seq<Row> {
    if |rows| <= n then rows else rows[..n]
  }

  lemma {:induction false} ExtendKeeps<Row>(fingerprint: Row -> string, rows: seq<Row>, more: seq<Row>)
    ensures rows <= Extend(fingerprint, rows, more)
    ensures Distinct(fingerprint, rows) ==> Distinct(fingerprint, Extend(fingerprint, rows, more))
    ensures forall x | x in Extend(fingerprint, rows, more) :: x in rows || x in more
    ensures forall x | x in rows || x in more :: Seen(fingerprint, Extend(fingerprint, rows, more), x)
    decreases more
  {
    if more != [] {
      var start := if Seen(fingerprint, rows, more[0]) then rows else rows + [more[0]];
      ExtendKeeps(fingerprint, start, more[1..]);
      var out := Extend(fingerprint, rows, more);
      assert start <= out;
      forall x | x in rows || x in more ensures Seen(fingerprint, out, x) {
        if x == more[0] {
          assert Seen(fingerprint, start, x) by {
            if start != rows { assert start[|rows|] == x; }
          }
          var i :| 0 <= i < |start| && fingerprint(start[i]) == fingerprint(x);
          assert fingerprint(out[i]) == fingerprint(x);
        }
      }
    } else {
      forall x | x in rows ensures Seen(fingerprint, rows, x) {}
    }
  }

  lemma {:induction false} ExtendConcat<Row>(fingerprint: Row -> string, rows: seq<Row>, a: seq<Row>, b: seq<Row>)
    ensures Extend(fingerprint, rows, a + b) == Extend(fingerprint, Extend(fingerprint, rows, a), b)
    decreases a
  {
    if a == [] {
      assert a + b == b;
    } else {
      assert (a + b)[1..] == a[1..] + b;
      ExtendConcat(fingerprint, if Seen(fingerprint, rows, a[0]) then rows else rows + [a[0]], a[1..], b);
    }
  }

  lemma {:induction false} ExtendDistinct<Row>(fingerprint: Row -> string, rows: seq<Row>, more: seq<Row>)
    requires Distinct(fingerprint, rows + more)
    ensures Extend(fingerprint, rows, more) == rows + more
    decreases more
  {
    if more == [] {
      assert rows + more == rows;
    } else {
      assert (rows + more)[|rows|] == more[0];
      assert forall i | 0 <= i < |rows| :: rows[i] == (rows + more)[i];
      assert rows + [more[0]] + more[1..] == rows + more;
      ExtendDistinct(fingerprint, rows + [more[0]], more[1..]);
    }
  }

  // ----- the paging loops -----

  /** The rows of the pages that a read has received, one after the other. */
  function Concat<Row>(pages: seq<seq<Row>>): seq<Row> {
    if pages == [] then [] else Concat(pages[..|pages| - 1]) + pages[|pages| - 1]
  }

  lemma ConcatSnoc<Row>(pages: seq<seq<Row>>, page: seq<Row>)
    ensures Concat(pages + [page]) == Concat(pages) + page
  {
    assert (pages + [page])[..|pages|] == pages;
  }

  /** `received` are the pages the source answers, in order, when each is requested at the rows gathered before it. */
  ghost predicate Received<Row>(source: Source<Row>, size: nat, received: seq<seq<Row>>) {
    forall k: nat | k < |received| :: Answered(source, size, received, k)
  }

  ghost predicate Answered<Row>(source: Source<Row>, size: nat, received: seq<seq<Row>>, k: nat)
    requires k < |received|
  {
    source.fetch(k, |Dedup(source.fingerprint, Concat(received[..k]))|, size) == Page(received[k])
  }

  /** Adds the new rows of one page until the budget is full; the same loop in queryTable and appendUniqueRows. */
  method AppendUniqueRows<Row(==)>(fingerprint: Row -> string, start: seq<Row>, startSeen: set<string>,
      pageRows: seq<Row>, rowBudget: nat)
    returns (rows: seq<Row>, seen: set<string>, added: nat)
    requires |start| < rowBudget
    requires startSeen == set r | r in start :: fingerprint(r)
    ensures rows == Take(Extend(fingerprint, start, pageRows), rowBudget)
    ensures seen == set r | r in rows :: fingerprint(r)
    ensures added == |rows| - |start|
  {
    rows, seen, added := start, startSeen, 0;
    for i := 0 to |pageRows|
      invariant rows == Extend(fingerprint, start, pageRows[..i])
      invariant |rows| < rowBudget
      invariant seen == set r | r in rows :: fingerprint(r)
      invariant added == |rows| - |start|
    {
      var row := pageRows[i];
      var key := fingerprint(row);
      assert pageRows[..i + 1] == pageRows[..i] + [row];
      ExtendConcat(fingerprint, start, pageRows[..i], [row]);
      if key in seen {
        continue;
      }
      assert !Seen(fingerprint, rows, row);
      seen := seen + {key};
      rows := rows + [row];
      added := added + 1;
      if |rows| == rowBudget {
        assert pageRows == pageRows[..i + 1] + pageRows[i + 1..];
        ExtendConcat(fingerprint, start, pageRows[..i + 1], pageRows[i + 1..]);
        ExtendKeeps(fingerprint, rows, pageRows[i + 1..]);
        return;
      }
    }
    assert pageRows[..|pageRows|] == pageRows;
  }

  /**
   What the paging loop returns from page `page` on, with `rows` gathered so far.
   `quietSmall` is queryTable's rule that a full budget below one page is no truncation.
   */
  function Read<Row>(source: Source<Row>, budget: nat, quietSmall: bool, page: nat, rows: seq<Row>): Outcome<Row>
    decreases MAXIMUM_PAGES - page
  {
    var size := PageSizeFor(budget);
    if page >= MAXIMUM_PAGES || |rows| >= budget then
      Outcome(rows, if rows != [] && |rows| >= budget then Some(Truncated) else None, page)
    else if source.expired(page) then
      Outcome(rows, Some(if rows != [] then Truncated else TimedOut), page)
    else
      match source.fetch(page, |rows|, size)
      case Failure(reason) => Outcome(rows, Some(PageFailed(page + 1, |rows|, reason)), page + 1)
      case Page(pageRows) =>
        var gathered := Take(Extend(source.fingerprint, rows, pageRows), budget);
        if |gathered| == |rows| || |pageRows| < size then Outcome(gathered, None, page + 1)
        else if |gathered| == budget then
          Outcome(gathered, if quietSmall && budget < PAGE_SIZE then None else Some(Truncated), page + 1)
        else Read(source, budget, quietSmall, page + 1, gathered)
  }

  /** queryTable, after its argument checks. */
  method QueryTable<Row(==)>(source: Source<Row>, maximum: int)
      returns (rows: seq<Row>, error: Option<PageError>, ghost requests: nat)
    ensures Outcome(rows, error, requests) == Read(source, RowBudget(maximum), true, 0, [])
  {
    var rowBudget := RowBudget(maximum);
    var pageSize := PageSizeFor(rowBudget);
    rows, requests := [], 0;
    var seen: set<string> := {};
    var page := 0;
    while page < MAXIMUM_PAGES && |rows| < rowBudget
      invariant 0 <= page <= MAXIMUM_PAGES && |rows| < rowBudget && requests == page
      invariant seen == set r | r in rows :: source.fingerprint(r)
      invariant Read(source, rowBudget, true, 0, []) == Read(source, rowBudget, true, page, rows)
      decreases MAXIMUM_PAGES - page
    {
      if source.expired(page) {
        return rows, Some(if |rows| != 0 then Truncated else TimedOut), requests;
      }
      requests := requests + 1;
      match source.fetch(page, |rows|, pageSize) {
        case Failure(reason) =>
          return rows, Some(PageFailed(page + 1, |rows|, reason)), requests;
        case Page(pageRows) =>
          var added;
          rows, seen, added := AppendUniqueRows(source.fingerprint, rows, seen, pageRows, rowBudget);
          if added == 0 || |pageRows| < pageSize {
            return rows, None, requests;
          }
          if |rows| == rowBudget {
            if rowBudget >= PAGE_SIZE {
              return rows, Some(Truncated), requests;
            }
            return rows, None, requests;
          }
      }
      page := page + 1;
    }
    error := None;
  }

  /** fetchOGCItems and fetchWFSItems, after their argument checks. */
  method FetchItems<Row(==)>(source: Source<Row>, limit: int)
      returns (rows: seq<Row>, error: Option<PageError>, ghost requests: nat)
    ensures Outcome(rows, error, requests) == Read(source, RowBudget(limit), false, 0, [])
  {
    var rowBudget := RowBudget(limit);
    var pageSize := PageSizeFor(rowBudget);
    rows, requests := [], 0;
    var seen: set<string> := {};
    var page := 0;
    while page < MAXIMUM_PAGES && |rows| < rowBudget
      invariant 0 <= page <= MAXIMUM_PAGES && |rows| < rowBudget && requests == page
      invariant seen == set r | r in rows :: source.fingerprint(r)
      invariant Read(source, rowBudget, false, 0, []) == Read(source, rowBudget, false, page, rows)
      decreases MAXIMUM_PAGES - page
    {
      if source.expired(page) {
        return rows, Some(if |rows| != 0 then Truncated else TimedOut), requests;
      }
      requests := requests + 1;
      match source.fetch(page, |rows|, pageSize) {
        case Failure(reason) =>
          return rows, Some(PageFailed(page + 1, |rows|, reason)), requests;
        case Page(pageRows) =>
          var added;
          rows, seen, added := AppendUniqueRows(source.fingerprint, rows, seen, pageRows, rowBudget);
          if added == 0 || |pageRows| < pageSize {
            return rows, None, requests;
          }
          if |rows| == rowBudget {
            return rows, Some(Truncated), requests;
          }
      }
      page := page + 1;
    }
    error := None;
  }

  // ----- any source -----

  /** `received` explains a read's result: what was kept, why it stopped, and what it asked for. */
  ghost predicate Explains<Row>(source: Source<Row>, budget: nat, quietSmall: bool, received: seq<seq<Row>>,
      out: Outcome<Row>) {
    var all := Dedup(source.fingerprint, Concat(received));
    var size := PageSizeFor(budget);
    && Received(source, size, received)
    && out.rows == Take(all, budget)
    && (match out.error
        case Some(PageFailed(page, gathered, reason)) =>
          && out.rows == all && page == |received| + 1 == out.requests && gathered == |all|
          && source.fetch(|received|, |all|, size) == Failure(reason)
        case Some(TimedOut) => out.rows == [] && |received| == out.requests && source.expired(|received|)
        case Some(Truncated) =>
          && |received| == out.requests && out.rows != []
          && (|out.rows| == budget || source.expired(|received|))
        case None =>
          && |received| == out.requests > 0
          && (var last := received[|received| - 1];
              || |last| < size
              || |Dedup(source.fingerprint, Concat(received[..|received| - 1]))| == |all|
              || |received| == MAXIMUM_PAGES
              || (quietSmall && budget < PAGE_SIZE && |out.rows| == budget)))
  }

  lemma ReceiveOne<Row>(source: Source<Row>, size: nat, received: seq<seq<Row>>, pageRows: seq<Row>)
    requires Received(source, size, received)
    requires source.fetch(|received|, |Dedup(source.fingerprint, Concat(received))|, size) == Page(pageRows)
    ensures Received(source, size, received + [pageRows])
    ensures Dedup(source.fingerprint, Concat(received + [pageRows])) ==
            Extend(source.fingerprint, Dedup(source.fingerprint, Concat(received)), pageRows)
  {
    var final := received + [pageRows];
    ConcatSnoc(received, pageRows);
    ExtendConcat(source.fingerprint, [], Concat(received), pageRows);
    assert final[..|received|] == received;
    forall k: nat | k < |final| ensures Answered(source, size, final, k) {
      if k < |received| {
        assert Answered(source, size, received, k);
        assert final[..k] == received[..k];
      }
    }
  }

  lemma StopExplained<Row>(source: Source<Row>, budget: nat, quietSmall: bool, received: seq<seq<Row>>)
    requires 0 < |received| == MAXIMUM_PAGES || (|received| < MAXIMUM_PAGES && source.expired(|received|))
      || (|received| < MAXIMUM_PAGES && !source.expired(|received|)
          && source.fetch(|received|, |Dedup(source.fingerprint, Concat(received))|, PageSizeFor(budget)).Failure?)
    requires Received(source, PageSizeFor(budget), received)
    requires |Dedup(source.fingerprint, Concat(received))| < budget
    ensures Explains(source, budget, quietSmall, received,
                     Read(source, budget, quietSmall, |received|, Dedup(source.fingerprint, Concat(received))))
  {}

  lemma LastPageExplained<Row>(source: Source<Row>, budget: nat, quietSmall: bool, received: seq<seq<Row>>,
      pageRows: seq<Row>)
    requires |received| < MAXIMUM_PAGES && !source.expired(|received|)
    requires Received(source, PageSizeFor(budget), received)
    requires
      var rows := Dedup(source.fingerprint, Concat(received));
      var all := Extend(source.fingerprint, rows, pageRows);
      && |rows| < budget
      && source.fetch(|received|, |rows|, PageSizeFor(budget)) == Page(pageRows)
      && (|all| == |rows| || |all| >= budget || |pageRows| < PageSizeFor(budget))
    ensures Explains(source, budget, quietSmall, received + [pageRows],
                     Read(source, budget, quietSmall, |received|, Dedup(source.fingerprint, Concat(received))))
  {
    ReceiveOne(source, PageSizeFor(budget), received, pageRows);
    ExtendKeeps(source.fingerprint, Dedup(source.fingerprint, Concat(received)), pageRows);
    assert (received + [pageRows])[..|received|] == received;
  }

  lemma ReadContinues<Row>(source: Source<Row>, budget: nat, quietSmall: bool, page: nat, rows: seq<Row>,
      pageRows: seq<Row>)
    requires page < MAXIMUM_PAGES && |rows| < budget && !source.expired(page)
    requires source.fetch(page, |rows|, PageSizeFor(budget)) == Page(pageRows)
    requires |rows| < |Extend(source.fingerprint, rows, pageRows)| < budget && |pageRows| >= PageSizeFor(budget)
    ensures Read(source, budget, quietSmall, page, rows) ==
            Read(source, budget, quietSmall, page + 1, Extend(source.fingerprint, rows, pageRows))
  {}

  lemma {:induction false} ReadExplained<Row>(source: Source<Row>, budget: nat, quietSmall: bool,
                                              received: seq<seq<Row>>, rows: seq<Row>, out: Outcome<Row>)
    returns (final: seq<seq<Row>>)
    requires |received| <= MAXIMUM_PAGES && Received(source, PageSizeFor(budget), received)
    requires rows == Dedup(source.fingerprint, Concat(received)) && |rows| < budget
    requires out == Read(source, budget, quietSmall, |received|, rows)
    ensures Explains(source, budget, quietSmall, final, out)
    decreases MAXIMUM_PAGES - |received|
  {
    final := received;
    var size := PageSizeFor(budget);
    if |received| == MAXIMUM_PAGES || source.expired(|received|) || source.fetch(|received|, |rows|, size).Failure? {
      StopExplained(source, budget, quietSmall, received);
    } else {
      var pageRows := source.fetch(|received|, |rows|, size).rows;
      var all := Extend(source.fingerprint, rows, pageRows);
      ExtendKeeps(source.fingerprint, rows, pageRows);
      if |all| == |rows| || |all| >= budget || |pageRows| < size {
        final := received + [pageRows];
        LastPageExplained(source, budget, quietSmall, received, pageRows);
      } else {
        ReceiveOne(source, size, received, pageRows);
        ReadContinues(source, budget, quietSmall, |received|, rows, pageRows);
        final := ReadExplained(source, budget, quietSmall, received + [pageRows], all, out);
      }
    }
  }

  /**
   For any replies and failures: the rows are pairwise distinct, they are the first
   occurrences in the concatenated pages cut at the budget, at most eight requests are
   made, and a failed page leaves exactly the rows gathered before it.
   */
  lemma AnySource<Row>(source: Source<Row>, maximum: int, quietSmall: bool) returns (received: seq<seq<Row>>)
    ensures
      var out := Read(source, RowBudget(maximum), quietSmall, 0, []);
      && Explains(source, RowBudget(maximum), quietSmall, received, out)
      && Distinct(source.fingerprint, out.rows)
      && |out.rows| <= RowBudget(maximum) <= MAXIMUM_ROWS
      && out.requests <= MAXIMUM_PAGES
  {
    received := ReadExplained(source, RowBudget(maximum), quietSmall, [], [],
        Read(source, RowBudget(maximum), quietSmall, 0, []));
    ExtendKeeps(source.fingerprint, [], Concat(received));
    RequestsBounded(source, RowBudget(maximum), quietSmall, 0, []);
  }

  lemma {:induction false} RequestsBounded<Row>(source: Source<Row>, budget: nat, quietSmall: bool, page: nat,
      rows: seq<Row>)
    requires page <= MAXIMUM_PAGES
    ensures Read(source, budget, quietSmall, page, rows).requests <= MAXIMUM_PAGES
    decreases MAXIMUM_PAGES - page
  {
    if page < MAXIMUM_PAGES && |rows| < budget && !source.expired(page) {
      match source.fetch(page, |rows|, PageSizeFor(budget))
      case Failure(_) =>
      case Page(pageRows) =>
        RequestsBounded(source, budget, quietSmall, page + 1, Take(Extend(source.fingerprint, rows, pageRows), budget));
    }
  }

  // ----- a stable source -----

  /** The source serves the rows of `table` by offset and never times out. */
  ghost predicate Serves<Row>(source: Source<Row>, table: seq<Row>) {
    && Distinct(source.fingerprint, table)
    && forall page: nat, offset: nat, size: nat :: ServesPage(source, table, page, offset, size)
  }

  ghost predicate ServesPage<Row>(source: Source<Row>, table: seq<Row>, page: nat, offset: nat, size: nat) {
    !source.expired(page) && source.fetch(page, offset, size) == Page(Slice(table, offset, size))
  }

  function Slice<Row>(table: seq<Row>, offset: nat, size: nat): seq<Row> {
    if offset >= |table| then [] else Take(table[offset..], size)
  }

  /** The end of the last page that a read within `budget` requests. */
  function LastPageEnd(budget: nat): nat {
    if budget < PAGE_SIZE then budget else (budget + PAGE_SIZE - 1) / PAGE_SIZE * PAGE_SIZE
  }

  function StableError(budget: nat, quietSmall: bool, tableSize: nat): Option<PageError> {
    if tableSize < LastPageEnd(budget) || (quietSmall && budget < PAGE_SIZE) then None else Some(Truncated)
  }

  /** The last page ends at the budget, or at the next multiple of the page size. */
  lemma LastPageEndIs(budget: nat)
    requires budget >= PAGE_SIZE
    ensures LastPageEnd(budget) == if budget % PAGE_SIZE == 0 then budget else budget - budget % PAGE_SIZE + PAGE_SIZE
  {
    var pages, rest := budget / PAGE_SIZE, budget % PAGE_SIZE;
    assert budget == pages * PAGE_SIZE + rest;
    assert (budget + PAGE_SIZE - 1) / PAGE_SIZE == if rest == 0 then pages else pages + 1;
  }

  lemma StablePage<Row>(source: Source<Row>, table: seq<Row>, offset: nat, size: nat)
    requires Serves(source, table) && offset <= |table|
    ensures
      var pageRows := Slice(table, offset, size);
      && |pageRows| == (if |table| - offset < size then |table| - offset else size)
      && Extend(source.fingerprint, table[..offset], pageRows) == table[..offset + |pageRows|]
  {
    var pageRows := Slice(table, offset, size);
    assert table[..offset] + pageRows == table[..offset + |pageRows|];
    assert Distinct(source.fingerprint, table[..offset + |pageRows|]);
    ExtendDistinct(source.fingerprint, table[..offset], pageRows);
  }

  /** The outcome of a read that ends with a page, when `all` has been gathered with it. */
  ghost predicate EndsWith<Row>(budget: nat, quietSmall: bool, all: seq<Row>, fullPage: bool, out: Outcome<Row>) {
    && out.rows == Take(all, budget)
    && out.error == if fullPage && !(quietSmall && budget < PAGE_SIZE) then Some(Truncated) else None
  }

  lemma ReadStops<Row>(source: Source<Row>, budget: nat, quietSmall: bool, page: nat, rows: seq<Row>,
      pageRows: seq<Row>)
    requires page < MAXIMUM_PAGES && |rows| < budget && !source.expired(page)
    requires source.fetch(page, |rows|, PageSizeFor(budget)) == Page(pageRows)
    requires |pageRows| < PageSizeFor(budget) || |Extend(source.fingerprint, rows, pageRows)| >= budget
    ensures EndsWith(budget, quietSmall, Extend(source.fingerprint, rows, pageRows), |pageRows| >= PageSizeFor(budget),
                     Read(source, budget, quietSmall, page, rows))
  {
  }

  lemma StableStop<Row>(table: seq<Row>, budget: nat, quietSmall: bool, offset: nat, gained: nat, out: Outcome<Row>)
    requires budget >= 1 && offset % PAGE_SIZE == 0 && offset < budget && (offset > 0 ==> budget > PAGE_SIZE)
    requires gained <= PageSizeFor(budget) && offset + gained <= |table|
    requires if gained < PageSizeFor(budget) then offset + gained == |table| else offset + gained >= budget
    requires EndsWith(budget, quietSmall, table[..offset + gained], gained >= PageSizeFor(budget), out)
    ensures out.rows == Take(table, budget) && out.error == StableError(budget, quietSmall, |table|)
  {
    assert Take(table[..offset + gained], budget) == Take(table, budget);
    if budget >= PAGE_SIZE {
      LastPageEndIs(budget);
      if gained == PAGE_SIZE {
        assert LastPageEnd(budget) == offset + PAGE_SIZE;
      }
    }
  }

  lemma {:induction false} ReadStable<Row>(source: Source<Row>, table: seq<Row>, budget: nat, quietSmall: bool,
                                           page: nat, rows: seq<Row>, out: Outcome<Row>)
    requires 1 <= budget <= MAXIMUM_ROWS && Serves(source, table)
    requires page == 0 || budget > PAGE_SIZE
    requires page * PAGE_SIZE < budget && page * PAGE_SIZE <= |table| && rows == table[..page * PAGE_SIZE]
    requires out == Read(source, budget, quietSmall, page, rows)
    ensures out.rows == Take(table, budget) && out.error == StableError(budget, quietSmall, |table|)
    decreases MAXIMUM_PAGES - page
  {
    var offset := page * PAGE_SIZE;
    var size := PageSizeFor(budget);
    var pageRows := Slice(table, offset, size);
    assert ServesPage(source, table, page, offset, size);
    StablePage(source, table, offset, size);
    if |pageRows| == size && offset + size < budget {
      var reached := table[..(page + 1) * PAGE_SIZE];
      ReadContinues(source, budget, quietSmall, page, rows, pageRows);
      ReadStable(source, table, budget, quietSmall, page + 1, reached, out);
    } else {
      ReadStops(source, budget, quietSmall, page, rows, pageRows);
      StableStop(table, budget, quietSmall, offset, |pageRows|, out);
    }
  }

  /** A stable table of distinct rows is read up to the budget; the error says how far it reached. */
  lemma StableRead<Row>(source: Source<Row>, table: seq<Row>, maximum: int, quietSmall: bool)
    requires Serves(source, table)
    ensures
      var out := Read(source, RowBudget(maximum), quietSmall, 0, []);
      && out.rows == Take(table, RowBudget(maximum))
      && out.error == StableError(RowBudget(maximum), quietSmall, |table|)
      && (out.error == Some(Truncated) ==> |table| >= RowBudget(maximum))
  {
    assert table[..0] == [];
    ReadStable(source, table, RowBudget(maximum), quietSmall, 0, [],
        Read(source, RowBudget(maximum), quietSmall, 0, []));
  }

  /**
   From one page on, a missing error tells that a stable table was read to its end exactly
   when the budget is a multiple of the page size or one row short of it.  Below one page
   it always tells so for the OGC and WFS reads and never for queryTable.
   */
  lemma NoErrorMeansComplete(budget: nat, quietSmall: bool)
    requires 1 <= budget <= MAXIMUM_ROWS
    ensures (forall n: nat | StableError(budget, quietSmall, n) == None :: n <= budget) <==>
            (if budget < PAGE_SIZE then !quietSmall else budget % PAGE_SIZE == 0 || budget % PAGE_SIZE == PAGE_SIZE - 1)
  {
    if budget >= PAGE_SIZE {
      LastPageEndIs(budget);
    }
    if (budget < PAGE_SIZE && quietSmall) || (budget >= PAGE_SIZE && 0 < budget % PAGE_SIZE < PAGE_SIZE - 1) {
      assert StableError(budget, quietSmall, budget + 1) == None;
    }
  }

  /** A budget of 300 rows over a table of 350 ends without an error and without the last fifty rows. */
  lemma ThreeHundredOfThreeHundredFifty<Row>(source: Source<Row>, table: seq<Row>)
    requires Serves(source, table) && |table| == 350
    ensures var out := Read(source, RowBudget(300), true, 0, []); out.rows == table[..300] && out.error == None
  {
    StableRead(source, table, 300, true);
    LastPageEndIs(300);
  }

  // ----- the page cap is silent -----

  /** Every page brings one new row and otherwise repeats. */
  function Trickle(page: nat, size: nat): seq<int> {
    seq(size, i => if i == 0 then page else 0)
  }

  function Unary(row: int): string {
    if row <= 0 then "" else "." + Unary(row - 1)
  }

  lemma {:induction false} UnaryLength(row: nat)
    ensures |Unary(row)| == row
  {
    if row > 0 {
      UnaryLength(row - 1);
    }
  }

  function UpTo(n: nat): seq<int> {
    seq(n, i => i)
  }

  lemma {:induction false} ZerosAreSeen(rows: seq<int>, more: seq<int>)
    requires rows != [] && rows[0] == 0
    requires forall i | 0 <= i < |more| :: more[i] == 0
    ensures Extend(Unary, rows, more) == rows
    decreases more
  {
    if more != [] {
      assert Unary(rows[0]) == Unary(more[0]);
      ZerosAreSeen(rows, more[1..]);
    }
  }

  lemma TrickleAddsOne(page: nat, size: nat)
    requires size > 0
    ensures Extend(Unary, UpTo(page), Trickle(page, size)) == UpTo(page + 1)
  {
    var rest := Trickle(page, size)[1..];
    assert Trickle(page, size)[0] == page;
    forall i | 0 <= i < page ensures Unary(UpTo(page)[i]) != Unary(page) {
      UnaryLength(i);
      UnaryLength(page);
    }
    assert UpTo(page) + [page] == UpTo(page + 1);
    ZerosAreSeen(UpTo(page + 1), rest);
  }

  lemma {:induction false} TrickleRead(source: Source<int>, page: nat, out: Outcome<int>)
    requires forall p: nat :: !source.expired(p)
    requires forall p: nat, offset: nat, size: nat :: source.fetch(p, offset, size) == Page(Trickle(p, size))
    requires source.fingerprint == Unary
    requires page <= MAXIMUM_PAGES
    requires out == Read(source, MAXIMUM_ROWS, true, page, UpTo(page))
    ensures out == Outcome(UpTo(MAXIMUM_PAGES), None, MAXIMUM_PAGES)
    decreases MAXIMUM_PAGES - page
  {
    if page < MAXIMUM_PAGES {
      TrickleAddsOne(page, PAGE_SIZE);
      ReadContinues(source, MAXIMUM_ROWS, true, page, UpTo(page), Trickle(page, PAGE_SIZE));
      TrickleRead(source, page + 1, out);
    }
  }

  /**
   A source whose pages overlap can run into the cap of eight pages, and that stop is not
   reported: this read ends without an error although the ninth page holds a new row.
   */
  lemma PageCapIsSilent() returns (source: Source<int>)
    ensures Read(source, MAXIMUM_ROWS, true, 0, []) == Outcome(UpTo(MAXIMUM_PAGES), None, MAXIMUM_PAGES)
    ensures
      var ninth := source.fetch(MAXIMUM_PAGES, MAXIMUM_PAGES, PAGE_SIZE);
      ninth.Page? && |ninth.rows| > 0 && !Seen(source.fingerprint, UpTo(MAXIMUM_PAGES), ninth.rows[0])
  {
    source := Source((page: nat, offset: nat, size: nat) => Page(Trickle(page, size)), (page: nat) => false, Unary);
    assert UpTo(0) == [];
    TrickleRead(source, 0, Read(source, MAXIMUM_ROWS, true, 0, []));
    forall i | 0 <= i < MAXIMUM_PAGES ensures Unary(UpTo(MAXIMUM_PAGES)[i]) != Unary(MAXIMUM_PAGES) {
      UnaryLength(i);
      UnaryLength(MAXIMUM_PAGES);
    }
  }
}
