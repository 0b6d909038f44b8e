/**
 * The runs export (apps/dashboard/src/lib/export.ts): a keyset walk over pages of runs, newest first,
 * with a cap, a page clamp and a truncation probe, printed as one CSV document. The table is read once
 * per page and may change between reads.
 */
module Export {
  import opened Prelude
  import opened Decimal
  import opened Csv
  import opened Text
  import Cursor

  const EXPORT_PAGE_SIZE: nat := 500
  const EXPORT_HARD_MAX_ROWS: nat := 200_000
  const MAX_RUNS_LIST_LIMIT: nat := 200

  datatype Run = Run(
    id: string,
    status: string,
    branch: Option<string>,
    environment: Option<string>,
    commitSha: Option<string>,
    commitMessage: Option<string>,
    prNumber: Option<int>,
    actor: Option<string>,
    repo: Option<string>,
    origin: string,
    totalTests: int,
    passed: int,
    failed: int,
    flaky: int,
    skipped: int,
    durationMs: int,
    createdAt: int,
    completedAt: Option<int>)

  /** A row of the table: the exported columns and the tenant that owns it. */
  datatype Row = Row(run: Run, teamId: string, projectId: string)

  datatype Scope = Scope(teamId: string, projectId: string)

  // ----- The order (createdAt, id) -----

  datatype Key = Key(createdAt: int, id: string)

  function KeyOf(row: Row): Key {
    Key(row.run.createdAt, row.run.id)
  }

  /** The strict tuple comparison of the page condition. */
  predicate Less(a: Key, b: Key) {
    a.createdAt < b.createdAt || (a.createdAt == b.createdAt && TextLess(a.id, b.id))
  }

  lemma Order(a: Key, b: Key, c: Key)
    ensures !Less(a, a)
    ensures Less(a, b) && Less(b, c) ==> Less(a, c)
    ensures a == b || Less(a, b) || Less(b, a)
    ensures !(Less(a, b) && Less(b, a))
  {
    TextOrder(a.id, b.id, c.id);
  }

  predicate Descending(rows: seq<Row>) {
    forall i, j :: 0 <= i < j < |rows| ==> Less(KeyOf(rows[j]), KeyOf(rows[i]))
  }

  predicate DistinctKeys(rows: seq<Row>) {
    forall i, j :: 0 <= i < j < |rows| ==> KeyOf(rows[i]) != KeyOf(rows[j])
  }

  /** The runs table at one moment: keys are unique, and ids (ULIDs) are not empty. */
  type Table = rows: seq<Row> | DistinctKeys(rows) && forall row :: row in rows ==> row.run.id != "" witness []

  // ----- One query -----

  function Select(rows: seq<Row>, p: Row -> bool): (r: seq<Row>)
    ensures forall x :: x in r <==> x in rows && p(x)
    ensures DistinctKeys(rows) ==> DistinctKeys(r)
  {
    if rows == [] then []
    else
      var rest := Select(rows[1..], p);
      assert DistinctKeys(rows) ==> forall x :: x in rest ==> KeyOf(x) != KeyOf(rows[0]);
      if p(rows[0]) then [rows[0]] + rest else rest
  }

  function Insert(row: Row, sorted: seq<Row>): (r: seq<Row>)
    requires Descending(sorted) && forall x :: x in sorted ==> KeyOf(x) != KeyOf(row)
    ensures Descending(r) && |r| == |sorted| + 1
    ensures forall x :: x in r <==> x == row || x in sorted
  {
    if sorted == [] then [row]
    else if Less(KeyOf(sorted[0]), KeyOf(row)) then
      InFront(row, sorted);
      [row] + sorted
    else
      var rest := Insert(row, sorted[1..]);
      Order(KeyOf(sorted[0]), KeyOf(row), KeyOf(row));
      assert forall x :: x in rest ==> Less(KeyOf(x), KeyOf(sorted[0]));
      [sorted[0]] + rest
  }

  lemma InFront(row: Row, sorted: seq<Row>)
    requires sorted != [] && Descending(sorted) && Less(KeyOf(sorted[0]), KeyOf(row))
    ensures Descending([row] + sorted)
  {
    forall i | 0 <= i < |sorted| ensures Less(KeyOf(sorted[i]), KeyOf(row)) {
      Order(KeyOf(sorted[i]), KeyOf(sorted[0]), KeyOf(row));
    }
  }

  function Sort(rows: seq<Row>): (r: seq<Row>)
    requires DistinctKeys(rows)
    ensures Descending(r) && |r| == |rows|
    ensures forall x :: x in r <==> x in rows
  {
    if rows == [] then []
    else
      var rest := Sort(rows[1..]);
      assert forall x :: x in rest ==> KeyOf(x) != KeyOf(rows[0]);
      Insert(rows[0], rest)
  }

  /** A descending list is determined by its elements. */
  lemma {:induction false} DescendingUnique(a: seq<Row>, b: seq<Row>)
    requires Descending(a) && Descending(b) && forall x :: x in a <==> x in b
    ensures a == b
    decreases |a|
  {
    assert |b| > 0 ==> b[0] in b && b[0] in a;
    if a != [] {
      assert a[0] in b && (b != [] ==> b[0] in a);
      var i :| 0 <= i < |b| && b[i] == a[0];
      var j :| 0 <= j < |a| && a[j] == b[0];
      Order(KeyOf(a[0]), KeyOf(b[0]), KeyOf(b[0]));
      assert i == 0 && a[0] == b[0];
      TailElements(a);
      TailElements(b);
      DescendingUnique(a[1..], b[1..]);
      assert a == [a[0]] + a[1..] && b == [b[0]] + b[1..];
    }
  }

  lemma TailElements(a: seq<Row>)
    requires a != [] && Descending(a)
    ensures forall x :: x in a[1..] <==> x in a && x != a[0]
  {
    Order(KeyOf(a[0]), KeyOf(a[0]), KeyOf(a[0]));
  }

  // ----- Cursors -----

  function EncodeCursor(key: Key): string {
    Cursor.EncodeKeyset([IntText(key.createdAt), key.id])
  }

  /** None for a missing or malformed cursor, which means the first page. */
  function DecodeCursor(raw: Option<string>): Option<Key> {
    var segments := Cursor.DecodeKeyset(raw, 2);
    if segments.None? then None
    else
      var createdAt, id := IntValue(segments.value[0]), segments.value[1];
      if createdAt.None? || id == "" then None else Some(Key(createdAt.value, id))
  }

  /** A cursor decodes to the key it encodes unless the id is empty, which restarts at the first page. */
  lemma CursorRoundTrip(key: Key)
    ensures DecodeCursor(Some(EncodeCursor(key))) == if key.id == "" then None else Some(key)
  {
    hide Cursor.EncodeKeyset, Cursor.DecodeKeyset, IntText, IntValue;
    var segments := [IntText(key.createdAt), key.id];
    assert Cursor.Join(segments) != "" && Cursor.Unmarked(segments) == segments;
    Cursor.KeysetRoundTrip(segments);
    IntRoundTrip(key.createdAt);
  }

  /** A cursor of two segments is used exactly if the first is a number and the second is not empty. */
  lemma CursorMeans(first: string, id: string)
    requires ':' !in first
    ensures var number := IntValue(Cursor.WithoutMark(first));
            DecodeCursor(Some(Cursor.EncodeKeyset([first, id]))) ==
            if number.None? || id == "" then None else Some(Key(number.value, id))
  {
    hide Cursor.EncodeKeyset, Cursor.DecodeKeyset;
    var segments := [first, id];
    assert Cursor.Join(segments) != "" && Cursor.Unmarked(segments) == [Cursor.WithoutMark(first), id];
    Cursor.KeysetRoundTrip(segments);
    assert Cursor.SomeEmpty(Cursor.Unmarked(segments)) <==> Cursor.Unmarked(segments)[0] == "";
  }

  // ----- Pages -----

  function ResolveExportCap(configured: Option<real>): (cap: nat)
    ensures 1 <= cap <= EXPORT_HARD_MAX_ROWS
    ensures configured.Some? && 1.0 <= configured.value < (EXPORT_HARD_MAX_ROWS + 1) as real ==>
              cap as real <= configured.value < (cap + 1) as real
    ensures configured.Some? && configured.value < 1.0 ==> cap == 1
    ensures configured.None? || configured.value >= EXPORT_HARD_MAX_ROWS as real ==> cap == EXPORT_HARD_MAX_ROWS
  {
    if configured.None? then EXPORT_HARD_MAX_ROWS
    else Min(Max(1, configured.value.Floor), EXPORT_HARD_MAX_ROWS)
  }

  function ClampRunsListLimit(limit: int): int {
    Min(Max(1, limit), MAX_RUNS_LIST_LIMIT)
  }

  /** What decides which rows a request sees, apart from the cursor. */
  datatype Request = Request(scope: Scope, filters: Row -> bool) {
    predicate Admits(row: Row) {
      row.teamId == scope.teamId && row.projectId == scope.projectId && filters(row)
    }

    /** `buildRunsPageWhere`. */
    predicate Where(row: Row, cursor: Option<Key>) {
      Admits(row) && (cursor.Some? ==> Less(KeyOf(row), cursor.value))
    }

    /** The rows of the tenant from the cursor on, newest first. */
    function Matching(table: Table, cursor: Option<Key>): (r: seq<Row>)
      ensures Descending(r) && forall x :: x in r <==> x in table && Where(x, cursor)
      ensures forall x :: x in r <==>
                && x in table && x.teamId == scope.teamId && x.projectId == scope.projectId && filters(x)
                && (cursor.Some? ==> (x.run.createdAt < cursor.value.createdAt ||
                      (x.run.createdAt == cursor.value.createdAt && TextLess(x.run.id, cursor.value.id))))
    {
      Sort(Select(table, row => Where(row, cursor)))
    }
  }

  datatype Page = Page(runs: seq<Row>, nextCursor: Option<string>)

  function LoadRunsListPage(req: Request, table: Table, cursor: Option<string>, requested: int): (page: Page)
  {
    var limit := ClampRunsListLimit(requested);
    var all := req.Matching(table, DecodeCursor(cursor));
    var rows := all[..Min(|all|, limit + 1)];
    var hasMore := |rows| > limit;
    var page := if hasMore then rows[..limit] else rows;
    Page(page, if hasMore && page != [] then Some(EncodeCursor(KeyOf(page[|page| - 1]))) else None)
  }

  /** A page is the front of what matches, and has a cursor exactly when something is left. */
  lemma PageIsFront(req: Request, table: Table, cursor: Option<string>, requested: int)
    ensures var all, limit, page := req.Matching(table, DecodeCursor(cursor)), ClampRunsListLimit(requested),
                                    LoadRunsListPage(req, table, cursor, requested);
            && page.runs == all[..Min(|all|, limit)]
            && (page.nextCursor.Some? <==> |all| > limit)
            && (page.nextCursor.Some? ==> page.nextCursor.value == EncodeCursor(KeyOf(all[limit - 1])))
  {
    hide Request.Matching, DecodeCursor, EncodeCursor, Less, KeyOf;
  }

  // ----- Cells -----

  const RUN_CSV_HEADER: seq<string> := [
    "id", "status", "branch", "environment", "commit_sha", "commit_message", "pr_number", "actor", "repo",
    "origin", "total_tests", "passed", "failed", "flaky", "skipped", "duration_ms", "created_at", "completed_at"]

  function TextCell(s: Option<string>): CsvValue {
    if s.None? then Null else Str(s.value)
  }

  function NumCell(n: int): CsvValue {
    Num(IntText(n))
  }

  function RunCsvCells(run: Run): (cells: seq<CsvValue>)
    ensures |cells| == |RUN_CSV_HEADER|
  {
    [Str(run.id), Str(run.status), TextCell(run.branch), TextCell(run.environment), TextCell(run.commitSha),
     TextCell(run.commitMessage), if run.prNumber.None? then Null else NumCell(run.prNumber.value),
     TextCell(run.actor), TextCell(run.repo), Str(run.origin), NumCell(run.totalTests), NumCell(run.passed),
     NumCell(run.failed), NumCell(run.flaky), NumCell(run.skipped), NumCell(run.durationMs),
     NumCell(run.createdAt), if run.completedAt.None? then Null else NumCell(run.completedAt.value)]
  }

  /** The columns, each with its name in the file and the field of a run that it is for. */
  datatype Column = 
    | Id | Status | Branch | Environment | CommitSha | CommitMessage | PrNumber | Actor | Repo
    | Origin | TotalTests | Passed | Failed | Flaky | Skipped | DurationMs | CreatedAt | CompletedAt
  {
    function Name(): string {
      match this
      case Id => "id"
      case Status => "status"
      case Branch => "branch"
      case Environment => "environment"
      case CommitSha => "commit_sha"
      case CommitMessage => "commit_message"
      case PrNumber => "pr_number"
      case Actor => "actor"
      case Repo => "repo"
      case Origin => "origin"
      case TotalTests => "total_tests"
      case Passed => "passed"
      case Failed => "failed"
      case Flaky => "flaky"
      case Skipped => "skipped"
      case DurationMs => "duration_ms"
      case CreatedAt => "created_at"
      case CompletedAt => "completed_at"
    }

    function Of(run: Run): CsvValue {
      match this
      case Id => Str(run.id)
      case Status => Str(run.status)
      case Branch => TextCell(run.branch)
      case Environment => TextCell(run.environment)
      case CommitSha => TextCell(run.commitSha)
      case CommitMessage => TextCell(run.commitMessage)
      case PrNumber => if run.prNumber.None? then Null else NumCell(run.prNumber.value)
      case Actor => TextCell(run.actor)
      case Repo => TextCell(run.repo)
      case Origin => Str(run.origin)
      case TotalTests => NumCell(run.totalTests)
      case Passed => NumCell(run.passed)
      case Failed => NumCell(run.failed)
      case Flaky => NumCell(run.flaky)
      case Skipped => NumCell(run.skipped)
      case DurationMs => NumCell(run.durationMs)
      case CreatedAt => NumCell(run.createdAt)
      case CompletedAt => if run.completedAt.None? then Null else NumCell(run.completedAt.value)
    }
  }

  const COLUMNS: seq<Column> := [
    Id, Status, Branch, Environment, CommitSha, CommitMessage, PrNumber, Actor, Repo,
    Origin, TotalTests, Passed, Failed, Flaky, Skipped, DurationMs, CreatedAt, CompletedAt]

  lemma HeaderNames(i: nat)
    requires i < |COLUMNS|
    ensures RUN_CSV_HEADER[i] == COLUMNS[i].Name()
  {
    hide RunCsvCells;
  }

  lemma CellsOf(run: Run, i: nat)
    requires i < |COLUMNS|
    ensures RunCsvCells(run)[i] == COLUMNS[i].Of(run)
  {
    hide TextCell, NumCell, IntText, Column.Name;
  }

  /** Header and row mapper do not drift apart: at each position both speak of the same column. */
  lemma CellsMatchHeader(run: Run, i: nat)
    requires i < |RUN_CSV_HEADER|
    ensures |COLUMNS| == |RUN_CSV_HEADER|
    ensures RUN_CSV_HEADER[i] == COLUMNS[i].Name() && RunCsvCells(run)[i] == COLUMNS[i].Of(run)
  {
    hide RunCsvCells, Column.Name, Column.Of;
    HeaderNames(i);
    CellsOf(run, i);
  }

  function AllCells(rows: seq<Row>): (cells: seq<seq<CsvValue>>)
    ensures |cells| == |rows| && forall i :: 0 <= i < |rows| ==> cells[i] == RunCsvCells(rows[i].run)
  {
    if rows == [] then [] else [RunCsvCells(rows[0].run)] + AllCells(rows[1..])
  }

  lemma AllCellsConcat(a: seq<Row>, b: seq<Row>)
    ensures AllCells(a + b) == AllCells(a) + AllCells(b)
  {
    hide RunCsvCells, AllCells;
    assert forall i :: 0 <= i < |a| + |b| ==> AllCells(a + b)[i] == (AllCells(a) + AllCells(b))[i];
  }

  // ----- The walk -----

  /** The table as each successive page load finds it. */
  type Database = nat -> Table

  datatype Walk = Walk(rows: seq<Row>, truncated: bool, loads: nat)

  /** Everything the walk emits from load `k` on, with `remaining` rows still allowed. */
  ghost function WalkFrom(req: Request, db: Database, k: nat, cursor: Option<string>, remaining: nat): Walk
    decreases remaining
  {
    if remaining == 0 then Walk([], |LoadRunsListPage(req, db(k), cursor, 1).runs| > 0, 1)
    else
      var page := LoadRunsListPage(req, db(k), cursor, Min(EXPORT_PAGE_SIZE, remaining));
      PageIsFront(req, db(k), cursor, Min(EXPORT_PAGE_SIZE, remaining));
      if page.nextCursor.None? then Walk(page.runs, false, 1)
      else
        var rest := WalkFrom(req, db, k + 1, page.nextCursor, remaining - |page.runs|);
        Walk(page.runs + rest.rows, rest.truncated, 1 + rest.loads)
  }

  ghost function Export(req: Request, db: Database, configured: Option<real>): Walk
  {
    WalkFrom(req, db, 0, None, ResolveExportCap(configured))
  }

  datatype CsvExportResult = CsvExportResult(body: string, rowCount: nat, truncated: bool)

  /** The loop over one page. */
  method AppendPage(body: string, rowCount: nat, runs: seq<Row>, ghost header: seq<seq<CsvValue>>,
                    ghost before: seq<Row>)
    returns (body': string, rowCount': nat)
    requires body == Document(header + AllCells(before))
    ensures body' == Document(header + AllCells(before + runs)) && rowCount' == rowCount + |runs|
  {
    hide RunCsvCells, CsvRow, Document, AllCells;
    body', rowCount' := body, rowCount;
    assert before + runs[..0] == before;
    for i := 0 to |runs|
      invariant body' == Document(header + AllCells(before + runs[..i])) && rowCount' == rowCount + i
    {
      DocumentGrows(header, before + runs[..i], runs[i]);
      assert before + runs[..i + 1] == before + runs[..i] + [runs[i]];
      body' := body' + CsvRow(RunCsvCells(runs[i].run)) + CRLF;
      rowCount' := rowCount' + 1;
    }
    assert runs[..|runs|] == runs;
  }

  method BuildRunsCsv(req: Request, db: Database, configured: Option<real>)
    returns (r: CsvExportResult, ghost loads: nat)
    ensures var walk := Export(req, db, configured);
            && r.body == Document([HeaderCells(RUN_CSV_HEADER)] + AllCells(walk.rows))
            && r.rowCount == |walk.rows| && r.truncated == walk.truncated
    ensures loads == Export(req, db, configured).loads
  {
    hide LoadRunsListPage, RunCsvCells, CsvRow, Document, AllCells, HeaderCells, DistinctKeys, ResolveExportCap;
    var maxRows := ResolveExportCap(configured);
    var body := CsvRow(HeaderCells(RUN_CSV_HEADER)) + CRLF;
    var rowCount := 0;
    var cursor: Option<string> := None;
    var truncated := false;
    ghost var walk := Export(req, db, configured);
    ghost var header := [HeaderCells(RUN_CSV_HEADER)];
    ghost var emitted: seq<Row> := [];
    ghost var rest := walk;
    loads := 0;
    var k := 0;
    DocumentStart(header);
    while true
      invariant rowCount == |emitted| <= maxRows && loads == k
      invariant rest == WalkFrom(req, db, k, cursor, maxRows - rowCount)
      invariant walk == Walk(emitted + rest.rows, rest.truncated, loads + rest.loads)
      invariant body == Document(header + AllCells(emitted)) && !truncated
      decreases maxRows - rowCount
    {
      var remaining := maxRows - rowCount;
      if remaining <= 0 {
        var probe := LoadRunsListPage(req, db(k), cursor, 1);
        truncated := |probe.runs| > 0;
        loads := loads + 1;
        assert emitted + rest.rows == emitted;
        break;
      }
      var limit := Min(EXPORT_PAGE_SIZE, remaining);
      var page := LoadRunsListPage(req, db(k), cursor, limit);
      PageSize(req, db(k), cursor, limit);
      k, loads := k + 1, loads + 1;
      ghost var before := emitted;
      body, rowCount := AppendPage(body, rowCount, page.runs, header, emitted);
      emitted := emitted + page.runs;
      if page.nextCursor.None? {
        assert before + rest.rows == emitted;
        break;
      }
      rest := WalkFrom(req, db, k, page.nextCursor, remaining - |page.runs|);
      Associative(before, page.runs, rest.rows);
      cursor := page.nextCursor;
    }
    r := CsvExportResult(body, rowCount, truncated);
  }

  lemma PageSize(req: Request, table: Table, cursor: Option<string>, requested: int)
    requires requested >= 1
    ensures var page := LoadRunsListPage(req, table, cursor, requested);
            |page.runs| <= requested && (page.nextCursor.Some? ==> |page.runs| == Min(requested, 200))
  {
    PageIsFront(req, table, cursor, requested);
  }

  lemma DocumentStart(header: seq<seq<CsvValue>>)
    requires |header| == 1
    ensures Document(header + AllCells([])) == CsvRow(header[0]) + CRLF
  {
    DocumentConcat([], header);
    assert header + AllCells([]) == header;
  }

  lemma DocumentGrows(header: seq<seq<CsvValue>>, emitted: seq<Row>, row: Row)
    ensures Document(header + AllCells(emitted + [row]))
         == Document(header + AllCells(emitted)) + CsvRow(RunCsvCells(row.run)) + CRLF
  {
    hide RunCsvCells;
    AllCellsConcat(emitted, [row]);
    DocumentConcat(header + AllCells(emitted), [RunCsvCells(row.run)]);
    assert header + AllCells(emitted + [row]) == header + AllCells(emitted) + [RunCsvCells(row.run)];
  }

  // ----- While the table changes -----

  /** No row past the cursor is emitted, whatever the table does. */
  predicate AllBelow(rows: seq<Row>, cursor: Option<Key>) {
    cursor.Some? ==> forall i :: 0 <= i < |rows| ==> Less(KeyOf(rows[i]), cursor.value)
  }

  lemma PageDescends(req: Request, table: Table, cursor: Option<string>, requested: int)
    ensures var page := LoadRunsListPage(req, table, cursor, requested);
            && Descending(page.runs) && AllBelow(page.runs, DecodeCursor(cursor))
            && (forall row :: row in page.runs ==> row in table && req.Admits(row))
            && (page.nextCursor.Some? ==>
                  page.runs != [] && DecodeCursor(page.nextCursor) == Some(KeyOf(page.runs[|page.runs| - 1])))
  {
    hide LoadRunsListPage, DecodeCursor, EncodeCursor, Request.Matching, Less, DistinctKeys;
    PageIsFront(req, table, cursor, requested);
    var all, limit := req.Matching(table, DecodeCursor(cursor)), ClampRunsListLimit(requested);
    forall i | 0 <= i < |all| ensures req.Where(all[i], DecodeCursor(cursor)) && all[i] in table {
      assert all[i] in all;
    }
    if |all| > limit {
      CursorRoundTrip(KeyOf(all[limit - 1]));
    }
  }

  /** Two stretches of a walk on either side of a cursor. */
  lemma DescendingConcat(a: seq<Row>, b: seq<Row>)
    requires a != [] && Descending(a) && Descending(b) && AllBelow(b, Some(KeyOf(a[|a| - 1])))
    ensures Descending(a + b)
  {
    forall i, j | 0 <= i < |a| && 0 <= j < |b| ensures Less(KeyOf(b[j]), KeyOf(a[i])) {
      Order(KeyOf(b[j]), KeyOf(a[|a| - 1]), KeyOf(a[i]));
    }
  }

  lemma AllBelowConcat(a: seq<Row>, b: seq<Row>, cursor: Option<Key>)
    requires a != [] && AllBelow(a, cursor) && AllBelow(b, Some(KeyOf(a[|a| - 1])))
    ensures AllBelow(a + b, cursor)
  {
    if cursor.Some? {
      forall j | 0 <= j < |b| ensures Less(KeyOf(b[j]), cursor.value) {
        Order(KeyOf(b[j]), KeyOf(a[|a| - 1]), cursor.value);
      }
    }
  }

  /**
   * Emitted keys strictly decrease over the whole walk, within the cap, which a truncated walk reaches, and a
   * page with a cursor is always full, so the loads are few.
   */
  lemma {:induction false} WalkDescends(req: Request, db: Database, k: nat, cursor: Option<string>, remaining: nat)
    ensures var walk := WalkFrom(req, db, k, cursor, remaining);
            && Descending(walk.rows) && AllBelow(walk.rows, DecodeCursor(cursor))
            && |walk.rows| <= remaining && (walk.truncated ==> |walk.rows| == remaining)
            && walk.loads <= (remaining + 199) / 200 + 1
    decreases remaining
  {
    hide LoadRunsListPage, DecodeCursor, Descending, AllBelow, ClampRunsListLimit;
    if remaining == 0 {
      NothingEmitted(DecodeCursor(cursor));
    } else {
      var limit := Min(EXPORT_PAGE_SIZE, remaining);
      var page := LoadRunsListPage(req, db(k), cursor, limit);
      PageSize(req, db(k), cursor, limit);
      PageDescends(req, db(k), cursor, limit);
      if page.nextCursor.Some? {
        var rest := WalkFrom(req, db, k + 1, page.nextCursor, remaining - |page.runs|);
        WalkDescends(req, db, k + 1, page.nextCursor, remaining - |page.runs|);
        DescendingConcat(page.runs, rest.rows);
        AllBelowConcat(page.runs, rest.rows, DecodeCursor(cursor));
      }
    }
  }

  lemma NothingEmitted(cursor: Option<Key>)
    ensures Descending([]) && AllBelow([], cursor)
  {
  }

  /** Every emitted run belonged to the tenant and passed the filters when it was read. */
  lemma {:induction false} WalkAdmitted(req: Request, db: Database, k: nat, cursor: Option<string>, remaining: nat,
                                        row: Row)
    requires row in WalkFrom(req, db, k, cursor, remaining).rows
    ensures row.teamId == req.scope.teamId && row.projectId == req.scope.projectId && req.filters(row)
    ensures exists j: nat :: k <= j < k + WalkFrom(req, db, k, cursor, remaining).loads && row in db(j)
    decreases remaining
  {
    hide LoadRunsListPage, DecodeCursor, Descending, AllBelow, ClampRunsListLimit;
    if remaining > 0 {
      var limit := Min(EXPORT_PAGE_SIZE, remaining);
      var page := LoadRunsListPage(req, db(k), cursor, limit);
      PageSize(req, db(k), cursor, limit);
      PageDescends(req, db(k), cursor, limit);
      if row in page.runs {
        assert row in db(k);
      } else {
        WalkAdmitted(req, db, k + 1, page.nextCursor, remaining - |page.runs|, row);
      }
    }
  }

  /** A run keeps its creation time for as long as it exists. */
  ghost predicate KeysImmutable(db: Database) {
    forall j: nat, k: nat, a, b ::
      a in db(j) && b in db(k) && a.run.id == b.run.id ==> a.run.createdAt == b.run.createdAt
  }

  /** While rows come, go and change between page loads, no run is exported twice. */
  lemma NoRunTwice(req: Request, db: Database, configured: Option<real>, i: nat, j: nat)
    requires KeysImmutable(db)
    requires i < j < |Export(req, db, configured).rows|
    ensures Export(req, db, configured).rows[i].run.id != Export(req, db, configured).rows[j].run.id
  {
    hide WalkFrom;
    var walk, cap := Export(req, db, configured), ResolveExportCap(configured);
    WalkDescends(req, db, 0, None, cap);
    WalkAdmitted(req, db, 0, None, cap, walk.rows[i]);
    WalkAdmitted(req, db, 0, None, cap, walk.rows[j]);
    Order(KeyOf(walk.rows[i]), KeyOf(walk.rows[i]), KeyOf(walk.rows[i]));
  }

  /** The run with this key is in the table, in scope and let through, at each of the loads `k..k + n`. */
  ghost predicate Persists(req: Request, db: Database, key: Key, k: nat, n: nat) {
    forall j: nat :: k <= j < k + n ==>
      exists row :: row in db(j) && row.run.createdAt == key.createdAt && row.run.id == key.id
                    && row.teamId == req.scope.teamId && row.projectId == req.scope.projectId && req.filters(row)
  }

  lemma Persisting(req: Request, db: Database, key: Key, k: nat, n: nat) returns (row: Row)
    requires Persists(req, db, key, k, n) && n > 0
    ensures row in db(k) && KeyOf(row) == key && req.Admits(row)
  {
    var table := db(k);
    row :| row in table && row.run.createdAt == key.createdAt && row.run.id == key.id
           && row.teamId == req.scope.teamId && row.projectId == req.scope.projectId && req.filters(row);
  }

  predicate Emitted(rows: seq<Row>, key: Key) {
    exists i :: 0 <= i < |rows| && KeyOf(rows[i]) == key
  }

  /** The walk got as far as this key: it ran out of rows, or its last row lies no higher. */
  predicate Covers(walk: Walk, key: Key) {
    !walk.truncated || (walk.rows != [] && !Less(key, KeyOf(walk.rows[|walk.rows| - 1])))
  }

  lemma PageEmits(req: Request, table: Table, cursor: Option<string>, requested: int, key: Key, row: Row)
    requires row in table && KeyOf(row) == key && req.Where(row, DecodeCursor(cursor))
    ensures var page := LoadRunsListPage(req, table, cursor, requested);
            page.nextCursor.None? || (page.runs != [] && !Less(key, KeyOf(page.runs[|page.runs| - 1]))) ==>
              Emitted(page.runs, key)
  {
    hide DecodeCursor, EncodeCursor;
    PageIsFront(req, table, cursor, requested);
    var all, limit := req.Matching(table, DecodeCursor(cursor)), ClampRunsListLimit(requested);
    assert row in all;
    var i :| 0 <= i < |all| && all[i] == row;
    var page := LoadRunsListPage(req, table, cursor, requested);
    if i < |page.runs| {
      assert KeyOf(page.runs[i]) == key;
    } else {
      assert Less(KeyOf(all[i]), KeyOf(all[limit - 1]));
    }
  }

  lemma StillMatches(req: Request, row: Row, cursor: Option<string>)
    requires req.Admits(row) && (DecodeCursor(cursor).Some? ==> Less(KeyOf(row), DecodeCursor(cursor).value))
    ensures req.Where(row, DecodeCursor(cursor))
  {
  }

  /** A run admitted at every load is emitted, ties on the creation time included, wherever the walk got to. */
  lemma {:induction false} WalkComplete(req: Request, db: Database, k: nat, cursor: Option<string>, remaining: nat,
                                        key: Key)
    requires Persists(req, db, key, k, WalkFrom(req, db, k, cursor, remaining).loads)
    requires DecodeCursor(cursor).Some? ==> Less(key, DecodeCursor(cursor).value)
    requires Covers(WalkFrom(req, db, k, cursor, remaining), key)
    ensures Emitted(WalkFrom(req, db, k, cursor, remaining).rows, key)
    decreases remaining
  {
    hide LoadRunsListPage, DecodeCursor, EncodeCursor, ClampRunsListLimit, Less, KeyOf;
    hide Descending, AllBelow, Emitted, DistinctKeys, Request.Where, Request.Admits;
    var walk := WalkFrom(req, db, k, cursor, remaining);
    var limit := if remaining == 0 then 1 else Min(EXPORT_PAGE_SIZE, remaining);
    var page := LoadRunsListPage(req, db(k), cursor, limit);
    var row := Persisting(req, db, key, k, walk.loads);
    StillMatches(req, row, cursor);
    PageEmits(req, db(k), cursor, limit, key, row);
    PageSize(req, db(k), cursor, limit);
    PageDescends(req, db(k), cursor, limit);
    if remaining == 0 {
      ProbeFinds(req, db(k), cursor, row);
    } else if page.nextCursor.Some? {
      var last := KeyOf(page.runs[|page.runs| - 1]);
      var rest := WalkFrom(req, db, k + 1, page.nextCursor, remaining - |page.runs|);
      if !Less(key, last) {
        EmittedConcat(page.runs, rest.rows, key);
      } else {
        assert Covers(rest, key);
        WalkComplete(req, db, k + 1, page.nextCursor, remaining - |page.runs|, key);
        EmittedConcat(page.runs, rest.rows, key);
      }
    }
  }

  lemma EmittedConcat(a: seq<Row>, b: seq<Row>, key: Key)
    requires Emitted(a, key) || Emitted(b, key)
    ensures Emitted(a + b, key)
  {
    if Emitted(a, key) {
      var i :| 0 <= i < |a| && KeyOf(a[i]) == key;
      assert KeyOf((a + b)[i]) == key;
    } else {
      var i :| 0 <= i < |b| && KeyOf(b[i]) == key;
      assert KeyOf((a + b)[|a| + i]) == key;
    }
  }

  lemma ProbeFinds(req: Request, table: Table, cursor: Option<string>, row: Row)
    requires row in table && req.Where(row, DecodeCursor(cursor))
    ensures |LoadRunsListPage(req, table, cursor, 1).runs| > 0
  {
    hide DecodeCursor;
    PageIsFront(req, table, cursor, 1);
    assert row in req.Matching(table, DecodeCursor(cursor));
  }

  /** An export that is not flagged as truncated holds every run that was there, and admitted, throughout. */
  lemma ExportComplete(req: Request, db: Database, configured: Option<real>, key: Key)
    requires Persists(req, db, key, 0, Export(req, db, configured).loads)
    ensures Covers(Export(req, db, configured), key) ==> Emitted(Export(req, db, configured).rows, key)
    ensures Export(req, db, configured).truncated ==>
              |Export(req, db, configured).rows| == ResolveExportCap(configured)
  {
    hide WalkFrom;
    WalkDescends(req, db, 0, None, ResolveExportCap(configured));
    if Covers(Export(req, db, configured), key) {
      WalkComplete(req, db, 0, None, ResolveExportCap(configured), key);
    }
  }

  // ----- While the table stands still -----

  /** What matches below a row is what follows it in the sorted list. */
  lemma MatchingBelow(req: Request, table: Table, cursor: Option<Key>, n: nat)
    requires 0 < n <= |req.Matching(table, cursor)|
    ensures var all := req.Matching(table, cursor);
            req.Matching(table, Some(KeyOf(all[n - 1]))) == all[n..]
  {
    hide Request.Matching, Less, KeyOf, DistinctKeys;
    var all := req.Matching(table, cursor);
    var key := KeyOf(all[n - 1]);
    var below := req.Matching(table, Some(key));
    forall x ensures x in below <==> x in all[n..] {
      if x in below {
        if cursor.Some? {
          assert all[n - 1] in all;
          Order(KeyOf(x), key, cursor.value);
        }
        assert x in all;
        var i :| 0 <= i < |all| && all[i] == x;
        Order(KeyOf(x), key, KeyOf(x));
        assert all[n..][i - n] == x;
      }
      if x in all[n..] {
        var i :| 0 <= i < |all[n..]| && all[n..][i] == x;
        assert all[n + i] == x && x in all;
      }
    }
    DescendingUnique(below, all[n..]);
  }

  /** On a table that does not change, the walk is a prefix of the sorted matches, in few loads. */
  lemma {:induction false} WalkStable(req: Request, db: Database, table: Table, k: nat, cursor: Option<string>,
                                      remaining: nat)
    requires forall j: nat :: db(j) == table
    ensures var walk, all := WalkFrom(req, db, k, cursor, remaining), req.Matching(table, DecodeCursor(cursor));
            && walk.rows == all[..Min(|all|, remaining)]
            && (walk.truncated <==> |all| > remaining)
            && walk.loads <= (remaining + 199) / 200 + 1
    decreases remaining
  {
    hide LoadRunsListPage, DecodeCursor, EncodeCursor, Descending, Request.Matching, Request.Where, DistinctKeys;
    var all := req.Matching(table, DecodeCursor(cursor));
    if remaining == 0 {
      PageIsFront(req, table, cursor, 1);
    } else {
      var requested := Min(EXPORT_PAGE_SIZE, remaining);
      var n := ClampRunsListLimit(requested);
      var page := LoadRunsListPage(req, table, cursor, requested);
      PageIsFront(req, table, cursor, requested);
      assert db(k) == table;
      if page.nextCursor.Some? {
        NextPage(req, table, cursor, requested);
        WalkStable(req, db, table, k + 1, page.nextCursor, remaining - n);
        FrontConcat(all, n, remaining);
      }
    }
  }

  lemma NextPage(req: Request, table: Table, cursor: Option<string>, requested: int)
    requires LoadRunsListPage(req, table, cursor, requested).nextCursor.Some?
    ensures var all, n := req.Matching(table, DecodeCursor(cursor)), ClampRunsListLimit(requested);
            var next := LoadRunsListPage(req, table, cursor, requested).nextCursor;
            n <= |all| && req.Matching(table, DecodeCursor(next)) == all[n..]
  {
    hide LoadRunsListPage, DecodeCursor, EncodeCursor;
    var all, n := req.Matching(table, DecodeCursor(cursor)), ClampRunsListLimit(requested);
    PageIsFront(req, table, cursor, requested);
    CursorRoundTrip(KeyOf(all[n - 1]));
    assert all[n - 1] in all;
    MatchingBelow(req, table, DecodeCursor(cursor), n);
  }

  lemma FrontConcat<T>(all: seq<T>, n: nat, limit: nat)
    requires n <= |all| && n <= limit
    ensures all[..n] + all[n..][..Min(|all| - n, limit - n)] == all[..Min(|all|, limit)]
  {
  }

  /** The export of an unchanging table: the newest `cap` runs in order, truncated exactly when there are more. */
  lemma ExportStable(req: Request, db: Database, table: Table, configured: Option<real>)
    requires forall j: nat :: db(j) == table
    ensures var walk, all, cap := Export(req, db, configured), req.Matching(table, None), ResolveExportCap(configured);
            && walk.rows == all[..Min(|all|, cap)]
            && (walk.truncated <==> |all| > cap)
            && walk.loads <= (cap + 199) / 200 + 1
  {
    WalkStable(req, db, table, 0, None, ResolveExportCap(configured));
  }

  lemma HeaderPlain(i: nat)
    requires i < |RUN_CSV_HEADER|
    ensures !Risky(RUN_CSV_HEADER[i])
  {
    assert RUN_CSV_HEADER[i] != "" && 'a' <= RUN_CSV_HEADER[i][0] <= 'z';
  }

  lemma HeaderShown()
    ensures ShownRow(HeaderCells(RUN_CSV_HEADER)) == RUN_CSV_HEADER
  {
    hide Risky;
    forall i | 0 <= i < |RUN_CSV_HEADER| ensures Shown(HeaderCells(RUN_CSV_HEADER)[i]) == RUN_CSV_HEADER[i] {
      HeaderPlain(i);
    }
  }

  /** Any export reads back, by section 2 of RFC 4180, as the header and one record for each emitted run. */
  lemma ExportReadsBack(req: Request, db: Database, configured: Option<real>)
    ensures var cells := AllCells(Export(req, db, configured).rows);
            Parse(Document([HeaderCells(RUN_CSV_HEADER)] + cells)) == Some([RUN_CSV_HEADER] + ShownRows(cells))
  {
    hide Document, Parse, ShownRow, RunCsvCells, Export, HeaderCells;
    var cells, header := AllCells(Export(req, db, configured).rows), [HeaderCells(RUN_CSV_HEADER)];
    HeaderShown();
    ParsePrinted(header + cells);
    var shown := ShownRows(header + cells);
    assert forall i :: 0 <= i < |cells| ==> shown[i + 1] == ShownRow(cells[i]);
    assert shown == [RUN_CSV_HEADER] + ShownRows(cells);
  }

  /** What a reader of the file sees of a text: itself, or with a quote mark in front if it would be a formula. */
  predicate ReadsAs(field: string, text: string) {
    field == if text != "" && text[0] in "=+-@\t\r" then "'" + text else text
  }

  predicate ReadsAsOptional(field: string, text: Option<string>) {
    if text.None? then field == "" else ReadsAs(field, text.value)
  }

  predicate ReadsAsNumber(field: string, n: Option<int>) {
    if n.None? then field == "" else IntValue(field) == n
  }

  /** The fields of a record are those of the run, column by column in the order of the header. */
  predicate Describes(record: seq<string>, run: Run) {
    && |record| == 18
    && ReadsAs(record[0], run.id) && ReadsAs(record[1], run.status)
    && ReadsAsOptional(record[2], run.branch) && ReadsAsOptional(record[3], run.environment)
    && ReadsAsOptional(record[4], run.commitSha) && ReadsAsOptional(record[5], run.commitMessage)
    && ReadsAsNumber(record[6], run.prNumber)
    && ReadsAsOptional(record[7], run.actor) && ReadsAsOptional(record[8], run.repo) && ReadsAs(record[9], run.origin)
    && ReadsAsNumber(record[10], Some(run.totalTests)) && ReadsAsNumber(record[11], Some(run.passed))
    && ReadsAsNumber(record[12], Some(run.failed)) && ReadsAsNumber(record[13], Some(run.flaky))
    && ReadsAsNumber(record[14], Some(run.skipped)) && ReadsAsNumber(record[15], Some(run.durationMs))
    && ReadsAsNumber(record[16], Some(run.createdAt)) && ReadsAsNumber(record[17], run.completedAt)
  }

  lemma TextShown(text: Option<string>)
    ensures ReadsAsOptional(Shown(TextCell(text)), text)
    ensures text.Some? ==> ReadsAs(Shown(Str(text.value)), text.value)
  {
  }

  lemma NumberShown(n: int)
    ensures ReadsAsNumber(Shown(NumCell(n)), Some(n)) && ReadsAsNumber(Shown(Null), None)
  {
    hide IntText, IntValue;
    IntRoundTrip(n);
  }

  lemma FirstCells(run: Run)
    ensures var r := ShownRow(RunCsvCells(run));
            && |r| == 18 && r[0] == Shown(Str(run.id)) && r[1] == Shown(Str(run.status))
            && r[2] == Shown(TextCell(run.branch)) && r[3] == Shown(TextCell(run.environment))
            && r[4] == Shown(TextCell(run.commitSha)) && r[5] == Shown(TextCell(run.commitMessage))
            && r[6] == Shown(if run.prNumber.None? then Null else NumCell(run.prNumber.value))
            && r[7] == Shown(TextCell(run.actor)) && r[8] == Shown(TextCell(run.repo)) && r[9] == Shown(Str(run.origin))
  {
    hide Shown, TextCell, NumCell;
  }

  lemma LastCells(run: Run)
    ensures var r := ShownRow(RunCsvCells(run));
            && |r| == 18 && r[10] == Shown(NumCell(run.totalTests)) && r[11] == Shown(NumCell(run.passed))
            && r[12] == Shown(NumCell(run.failed)) && r[13] == Shown(NumCell(run.flaky))
            && r[14] == Shown(NumCell(run.skipped)) && r[15] == Shown(NumCell(run.durationMs))
            && r[16] == Shown(NumCell(run.createdAt))
            && r[17] == Shown(if run.completedAt.None? then Null else NumCell(run.completedAt.value))
  {
    hide Shown, TextCell, NumCell;
  }

  lemma RunShown(run: Run)
    ensures Describes(ShownRow(RunCsvCells(run)), run)
  {
    FirstCells(run);
    LastCells(run);
    hide ShownRow, RunCsvCells, Shown, TextCell, NumCell, ReadsAs, ReadsAsOptional, IntText, IntValue;
    TextShown(Some(run.id));
    TextShown(Some(run.status));
    TextShown(run.branch);
    TextShown(run.environment);
    TextShown(run.commitSha);
    TextShown(run.commitMessage);
    TextShown(run.actor);
    TextShown(run.repo);
    TextShown(Some(run.origin));
    forall n: int ensures ReadsAsNumber(Shown(NumCell(n)), Some(n)) && ReadsAsNumber(Shown(Null), None) {
      NumberShown(n);
    }
  }

  /** Reading any export back gives every emitted run's own fields, in the order in which the walk emitted them. */
  lemma ExportDescribesRuns(req: Request, db: Database, configured: Option<real>, i: nat)
    requires i < |Export(req, db, configured).rows|
    ensures var rows := Export(req, db, configured).rows;
            var parsed := Parse(Document([HeaderCells(RUN_CSV_HEADER)] + AllCells(rows)));
            && parsed.Some? && |parsed.value| == 1 + |rows| && Describes(parsed.value[i + 1], rows[i].run)
            && parsed.value[0] == [
                 "id", "status", "branch", "environment", "commit_sha", "commit_message", "pr_number", "actor", "repo",
                 "origin", "total_tests", "passed", "failed", "flaky", "skipped", "duration_ms", "created_at",
                 "completed_at"]
  {
    ExportReadsBack(req, db, configured);
    RunShown(Export(req, db, configured).rows[i].run);
    hide Parse, Document, RunCsvCells, ShownRow, Export, HeaderCells, Describes;
  }
}
