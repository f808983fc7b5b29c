/**
  The SQLite-backed index engine (`FileEngine.search.SearchUtil`).

  A file path is routed to one of the 41 tables `list0` .. `list40` by the checksum of its
  upper-cased, semicolon-free file name divided by 100. Mutations are not executed at once:
  each becomes a command record (a task id and a statement) in a queue, and a committer
  applies the whole queue as one batch when the execute-immediately flag is raised.

  SQL text is represented by the `Statement` datatype (one constructor per statement form the
  class builds); the native checksum `GetAscII` is the engine's `nativeAscii` function, and
  whether a batch raises an `SQLException` is a parameter of the flush.
*/
module SearchUtil {
  import opened Common

  /** `MAX_SQL_NUM`: once this many records are queued, new records are refused. */
  const MaxSqlNum: nat := 5000
  /** The tables are `list0` .. `list40`. */
  const LastTable: nat := 40
  const TableCount: nat := 41
  /** Checksum range covered by one table. */
  const GroupWidth: int := 100
  /** `File.separator` on Windows. */
  const Separator: char := '\\'
  /** `waitForCommandSet` gives up once its poll counter exceeds this (10 ms per poll, 10 s). */
  const MaxWaitPolls: nat := 1000

  /** `SqlTaskIds`: the group a command record belongs to. */
  datatype SqlTaskId =
    | DeleteFromList | DeleteFromCache | InsertToList | InsertToCache
    | CreateIndex | CreateTable | DropTable | DropIndex

  /** The index a `CREATE INDEX` statement builds: `cache_index` or `list<i>_index`. */
  datatype IndexTarget = CacheIndex | ListIndex(table: nat)

  /** The statements the engine queues, one constructor per SQL text it builds. */
  datatype Statement =
    | InsertPath(table: nat, asciiSum: int, path: string)  // INSERT OR IGNORE INTO list<t> VALUES(sum, "path");
    | DeletePath(table: nat, path: string)                 // DELETE from list<t> where PATH="path";
    | InsertCache(path: string)                            // INSERT OR IGNORE INTO cache(PATH) VALUES("path");
    | DeleteCache(path: string)                            // DELETE from cache where PATH="path";
    | CreateTableStmt(table: nat)                          // CREATE TABLE IF NOT EXISTS list<t> (ASCII INT, PATH text unique);
    | DropTableStmt(table: nat)                            // DROP TABLE IF EXISTS list<t>;
    | DropIndexStmt(table: nat)                            // DROP INDEX IF EXISTS list<t>_index;
    | CreateIndexStmt(target: IndexTarget)                 // CREATE INDEX IF NOT EXISTS ...

  /** `SQLWithTaskId`: one queued command record. */
  datatype SqlWithTaskId = SqlWithTaskId(taskId: SqlTaskId, sql: Statement)

  // ---------------------------------------------------------------------------
  // File name and checksum
  // ---------------------------------------------------------------------------

  /** `String.lastIndexOf(char)`: the last position of `c` in `s`, or -1. */
  function LastIndexOf(s: string, c: char): (r: int)
    ensures -1 <= r < |s|
    ensures r >= 0 ==> s[r] == c
    ensures forall j :: r < j < |s| ==> s[j] != c
  {
    if |s| == 0 then -1
    else if s[|s| - 1] == c then |s| - 1
    else LastIndexOf(s[..|s| - 1], c)
  }

  /** `getFileName`: the text after the last separator; `""` for a `null` path. */
  function FileName(path: Option<string>): (name: string)
    ensures path.None? ==> name == ""
    ensures path.Some? ==> |name| <= |path.value| && name == path.value[|path.value| - |name|..]
    ensures path.Some? ==> Separator !in name
    ensures path.Some? && |name| < |path.value| ==> path.value[|path.value| - |name| - 1] == Separator
    ensures path.Some? && Separator !in path.value ==> name == path.value
  {
    match path
    case None => ""
    case Some(p) => p[LastIndexOf(p, Separator) + 1..]
  }

  /** `Character.toUpperCase`, restricted to the ASCII letters. */
  function ToUpperAscii(c: char): char
  {
    if 'a' <= c <= 'z' then (c as int - 32) as char else c
  }

  /** The name `getAscIISum` hands to the native checksum: upper-cased, every `;` removed. */
  function Normalize(name: string): (r: string)
    ensures ';' !in r
    ensures forall i :: 0 <= i < |r| ==> !('a' <= r[i] <= 'z')
    ensures |r| <= |name|
    ensures name == [] ==> r == []
    ensures |name| == 1 ==> r == (if name[0] == ';' then [] else [ToUpperAscii(name[0])])
  {
    if name == [] then []
    else if ToUpperAscii(name[0]) == ';' then Normalize(name[1..])
    else [ToUpperAscii(name[0])] + Normalize(name[1..])
  }

  /** `getAscIISum`: the native checksum of the normalised name; 0 for `null`. */
  function AsciiSum(name: Option<string>, nativeAscii: string -> int): (sum: int)
    ensures name.None? ==> sum == 0
    ensures name.Some? ==> sum == nativeAscii(Normalize(name.value))
  {
    match name
    case None => 0
    case Some(n) => nativeAscii(Normalize(n))
  }

  lemma {:induction false} NormalizeConcat(a: string, b: string)
    ensures Normalize(a + b) == Normalize(a) + Normalize(b)
    decreases |a|
  {
    if a == [] {
      assert a + b == b;
    } else {
      assert (a + b)[0] == a[0];
      assert (a + b)[1..] == a[1..] + b;
      NormalizeConcat(a[1..], b);
    }
  }

  /** Removing a `;` from a name does not change what the checksum is computed from. */
  lemma SemicolonInsensitive(a: string, b: string)
    ensures Normalize(a + ";" + b) == Normalize(a + b)
  {
    NormalizeConcat(a + ";", b);
    NormalizeConcat(a, ";");
    NormalizeConcat(a, b);
    assert Normalize(";") == [];
  }

  /** Names that differ only in the case of ASCII letters are normalised alike. */
  lemma {:induction false} CaseInsensitive(a: string, b: string)
    requires |a| == |b|
    requires forall i :: 0 <= i < |a| ==> ToUpperAscii(a[i]) == ToUpperAscii(b[i])
    ensures Normalize(a) == Normalize(b)
    decreases |a|
  {
    if a != [] {
      CaseInsensitive(a[1..], b[1..]);
    }
  }

  /** Normalising twice is normalising once. */
  lemma {:induction false} NormalizeIdempotent(s: string)
    ensures Normalize(Normalize(s)) == Normalize(s)
    decreases |s|
  {
    if s != [] {
      NormalizeIdempotent(s[1..]);
      var r := Normalize(s[1..]);
      if ToUpperAscii(s[0]) != ';' {
        var c := ToUpperAscii(s[0]);
        assert ToUpperAscii(c) == c;
        assert ([c] + r)[0] == c && ([c] + r)[1..] == r;
      }
    }
  }

  /** Names equal up to ASCII case and semicolons get the same checksum, whatever the native sum. */
  lemma SameChecksum(a: string, b: string, nativeAscii: string -> int)
    requires Normalize(a) == Normalize(b)
    ensures AsciiSum(Some(a), nativeAscii) == AsciiSum(Some(b), nativeAscii)
    ensures AsciiSum(Some(a), nativeAscii) == AsciiSum(Some(Normalize(a)), nativeAscii)
  {
    NormalizeIdempotent(a);
  }

  // ---------------------------------------------------------------------------
  // Routing
  // ---------------------------------------------------------------------------

  /** Java's `/` on `int`, which truncates toward zero. */
  function JavaDiv(a: int, b: int): int
    requires b > 0
  {
    if a >= 0 then a / b else -((-a) / b)
  }

  /** `asciiSum / 100`: the table group of a checksum. */
  function Group(asciiSum: int): int
  {
    JavaDiv(asciiSum, GroupWidth)
  }

  /** `addAddSqlCommandByAscii`: the insert record for a checksum, or none when its group is not 0..40. */
  function InsertCommand(asciiSum: int, path: string): (r: Option<SqlWithTaskId>)
    ensures r.Some? <==> -GroupWidth < asciiSum < TableCount * GroupWidth
    ensures r.Some? ==> r.value.taskId == InsertToList && r.value.sql.InsertPath?
    ensures r.Some? ==> r.value.sql.path == path && r.value.sql.asciiSum == asciiSum
    ensures r.Some? ==> r.value.sql.table <= LastTable
    ensures r.Some? && asciiSum >= 0 ==>
      r.value.sql.table * GroupWidth <= asciiSum < (r.value.sql.table + 1) * GroupWidth
    ensures r.Some? && asciiSum < 0 ==> r.value.sql.table == 0
  {
    var group := Group(asciiSum);
    if 0 <= group <= LastTable then Some(SqlWithTaskId(InsertToList, InsertPath(group, asciiSum, path)))
    else None
  }

  /** `addDeleteSqlCommandByAscii`: the delete record for a group, or none when it is not 0..40. */
  function DeleteCommand(asciiGroup: int, path: string): (r: Option<SqlWithTaskId>)
    ensures r.Some? <==> 0 <= asciiGroup <= LastTable
    ensures r.Some? ==> r.value == SqlWithTaskId(DeleteFromList, DeletePath(asciiGroup as nat, path))
  {
    if 0 <= asciiGroup <= LastTable then Some(SqlWithTaskId(DeleteFromList, DeletePath(asciiGroup as nat, path)))
    else None
  }

  /** Add and remove of the same checksum are routed to the same table, or both dropped. */
  lemma AddRemoveSameTable(asciiSum: int, path: string)
    ensures InsertCommand(asciiSum, path).Some? <==> DeleteCommand(Group(asciiSum), path).Some?
    ensures InsertCommand(asciiSum, path).Some? ==>
      InsertCommand(asciiSum, path).value.sql.table == DeleteCommand(Group(asciiSum), path).value.sql.table
  {
  }

  // ---------------------------------------------------------------------------
  // What the statements mean: a small model of the SQLite store, used by lemmas only
  // ---------------------------------------------------------------------------

  /** Tables `list<t>` (path to checksum, unique on path), the cache table and the indexes. */
  datatype Store = Store(tables: map<nat, map<string, int>>, cache: set<string>, indexes: set<IndexTarget>)

  /** The effect of one statement; `None` where SQLite raises ("no such table"). */
  function Apply(st: Store, s: Statement): Option<Store>
  {
    match s
    case InsertPath(t, sum, p) =>
      if t !in st.tables then None
      else if p in st.tables[t] then Some(st)
      else Some(st.(tables := st.tables[t := st.tables[t][p := sum]]))
    case DeletePath(t, p) =>
      if t !in st.tables then None
      else Some(st.(tables := st.tables[t := st.tables[t] - {p}]))
    case InsertCache(p) => Some(st.(cache := st.cache + {p}))
    case DeleteCache(p) => Some(st.(cache := st.cache - {p}))
    case CreateTableStmt(t) =>
      Some(if t in st.tables then st else st.(tables := st.tables[t := map[]]))
    case DropTableStmt(t) =>
      Some(st.(tables := st.tables - {t}, indexes := st.indexes - {ListIndex(t)}))
    case DropIndexStmt(t) => Some(st.(indexes := st.indexes - {ListIndex(t)}))
    case CreateIndexStmt(target) =>
      if target.ListIndex? && target.table !in st.tables then None
      else Some(st.(indexes := st.indexes + {target}))
  }

  /** The effect of a batch run in order, stopping at the first statement that raises. */
  function ApplyAll(st: Store, cmds: seq<SqlWithTaskId>): Option<Store>
    decreases |cmds|
  {
    if cmds == [] then Some(st)
    else match Apply(st, cmds[0].sql)
      case None => None
      case Some(next) => ApplyAll(next, cmds[1..])
  }

  lemma {:induction false} ApplyAllAppend(st: Store, a: seq<SqlWithTaskId>, b: seq<SqlWithTaskId>)
    ensures ApplyAll(st, a + b) ==
      match ApplyAll(st, a) case None => None case Some(mid) => ApplyAll(mid, b)
    decreases |a|
  {
    if a == [] {
      assert a + b == b;
    } else {
      assert (a + b)[0] == a[0];
      assert (a + b)[1..] == a[1..] + b;
      match Apply(st, a[0].sql)
      case None =>
      case Some(next) => ApplyAllAppend(next, a[1..], b);
    }
  }

  /**
    Round trip through the routing: once the checksum's table exists, the insert record makes
    the path present, inserting it twice equals inserting it once, and the delete record for
    the same checksum removes it again.
  */
  lemma AddRemoveRoundTrip(st: Store, asciiSum: int, path: string)
    requires InsertCommand(asciiSum, path).Some?
    requires Group(asciiSum) in st.tables
    ensures var ins := InsertCommand(asciiSum, path).value;
      && ApplyAll(st, [ins]).Some?
      && Group(asciiSum) in ApplyAll(st, [ins]).value.tables
      && path in ApplyAll(st, [ins]).value.tables[Group(asciiSum)]
      && ApplyAll(st, [ins, ins]) == ApplyAll(st, [ins])
    ensures var ins := InsertCommand(asciiSum, path).value;
      var del := DeleteCommand(Group(asciiSum), path).value;
      && ApplyAll(st, [ins, del]).Some?
      && Group(asciiSum) in ApplyAll(st, [ins, del]).value.tables
      && path !in ApplyAll(st, [ins, del]).value.tables[Group(asciiSum)]
  {
    var ins := InsertCommand(asciiSum, path).value;
    var del := DeleteCommand(Group(asciiSum), path).value;
    ApplyAllAppend(st, [ins], [ins]);
    assert [ins] + [ins] == [ins, ins];
    ApplyAllAppend(st, [ins], [del]);
    assert [ins] + [del] == [ins, del];
  }

  /**
    The delete record for a group in 0..40, run on any store: it fails when that group's table
    does not exist; otherwise it removes the path from that table and nothing else changes.
  */
  lemma DeleteRemovesPath(st: Store, group: int, path: string)
    requires 0 <= group <= LastTable
    ensures DeleteCommand(group, path).Some?
    ensures var r := ApplyAll(st, [DeleteCommand(group, path).value]);
      && (group !in st.tables ==> r.None?)
      && (group in st.tables ==>
            && r.Some?
            && group in r.value.tables
            && r.value.tables[group] == st.tables[group] - {path}
            && (forall t :: t != group ==> (t in r.value.tables <==> t in st.tables))
            && (forall t :: t != group && t in st.tables ==> r.value.tables[t] == st.tables[t])
            && r.value.cache == st.cache && r.value.indexes == st.indexes)
  {
    var del := DeleteCommand(group, path).value;
    assert [del][1..] == [];
  }

  // ---------------------------------------------------------------------------
  // The rebuild and index sequences
  // ---------------------------------------------------------------------------

  /** Turn `k / 2` of the drop loop in `recreateDatabase`: its drop-table record, then its drop-index record. */
  function DropRecord(k: nat): SqlWithTaskId
  {
    if k % 2 == 0 then SqlWithTaskId(DropTable, DropTableStmt(k / 2))
    else SqlWithTaskId(DropIndex, DropIndexStmt(k / 2))
  }

  /** The records of the first `n` turns of the drop loop in `recreateDatabase`. */
  function DropCommands(n: nat): seq<SqlWithTaskId>
  {
    seq(2 * n, k requires 0 <= k < 2 * n => DropRecord(k))
  }

  /** The records of the first `n` turns of the create-table loop in `recreateDatabase`. */
  function CreateTableCommands(n: nat): seq<SqlWithTaskId>
  {
    seq(n, t requires 0 <= t < n => SqlWithTaskId(CreateTable, CreateTableStmt(t)))
  }

  /** The queue `recreateDatabase` leaves: 41 drop pairs, then 41 create-table records. */
  function RebuildCommands(): seq<SqlWithTaskId>
  {
    DropCommands(TableCount) + CreateTableCommands(TableCount)
  }

  /** The records of the first `n` turns of the list-index loop in `createAllIndex`. */
  function ListIndexCommands(n: nat): seq<SqlWithTaskId>
  {
    seq(n, t requires 0 <= t < n => SqlWithTaskId(CreateIndex, CreateIndexStmt(ListIndex(t))))
  }

  /** What `createAllIndex` appends: the cache index, then one index per table. */
  function IndexCommands(): seq<SqlWithTaskId>
  {
    [SqlWithTaskId(CreateIndex, CreateIndexStmt(CacheIndex))] + ListIndexCommands(TableCount)
  }

  /** One more turn of the drop loop appends table `n`'s drop-table and then its drop-index record. */
  lemma DropCommandsSnoc(n: nat)
    ensures DropCommands(n + 1) ==
      DropCommands(n) + [SqlWithTaskId(DropTable, DropTableStmt(n)), SqlWithTaskId(DropIndex, DropIndexStmt(n))]
  {
    assert (2 * n) % 2 == 0 && (2 * n) / 2 == n;
    assert (2 * n + 1) % 2 == 1 && (2 * n + 1) / 2 == n;
  }

  /** One more turn of the create loop appends table `n`'s create-table record. */
  lemma CreateTableCommandsSnoc(n: nat)
    ensures CreateTableCommands(n + 1) == CreateTableCommands(n) + [SqlWithTaskId(CreateTable, CreateTableStmt(n))]
  {
  }

  /** One more turn of the index loop appends table `n`'s index record. */
  lemma ListIndexCommandsSnoc(n: nat)
    ensures ListIndexCommands(n + 1) == ListIndexCommands(n) + [SqlWithTaskId(CreateIndex, CreateIndexStmt(ListIndex(n)))]
  {
  }

  /**
    The rebuild queue holds 123 records: for each table i, its drop-table and drop-index records
    at positions 2i and 2i + 1, and its create-table record at position 82 + i.
  */
  lemma RebuildLayout(i: nat)
    requires i <= LastTable
    ensures |RebuildCommands()| == 3 * TableCount
    ensures RebuildCommands()[2 * i] == SqlWithTaskId(DropTable, DropTableStmt(i))
    ensures RebuildCommands()[2 * i + 1] == SqlWithTaskId(DropIndex, DropIndexStmt(i))
    ensures RebuildCommands()[2 * TableCount + i] == SqlWithTaskId(CreateTable, CreateTableStmt(i))
  {
    assert (2 * i) % 2 == 0 && (2 * i) / 2 == i;
    assert (2 * i + 1) % 2 == 1 && (2 * i + 1) / 2 == i;
  }

  /** `createAllIndex` appends 42 records: the cache index first, then table i's index at 1 + i. */
  lemma IndexLayout(i: nat)
    requires i <= LastTable
    ensures |IndexCommands()| == TableCount + 1
    ensures IndexCommands()[0] == SqlWithTaskId(CreateIndex, CreateIndexStmt(CacheIndex))
    ensures IndexCommands()[1 + i] == SqlWithTaskId(CreateIndex, CreateIndexStmt(ListIndex(i)))
  {
  }

  lemma AppendIndexCommands(queue: seq<SqlWithTaskId>)
    ensures queue + [SqlWithTaskId(CreateIndex, CreateIndexStmt(CacheIndex))] + ListIndexCommands(TableCount)
      == queue + IndexCommands()
  {
  }

  /** Table number `t` is one of the first `n`. */
  predicate Below(t: nat, n: nat)
  {
    t < n
  }

  /** The tables numbered below `n`. */
  function TablesBelow(n: nat): (r: set<nat>)
    ensures forall t: nat :: t in r <==> t < n
  {
    set t: nat | t < n && Below(t, n)
  }

  /** The indexes of the tables numbered below `n`. */
  function ListIndexesBelow(n: nat): (r: set<IndexTarget>)
    ensures forall t: nat :: ListIndex(t) in r <==> t < n
    ensures CacheIndex !in r
  {
    set t: nat | t < n :: ListIndex(t)
  }

  /** The store after dropping tables and indexes below `n`. */
  function DroppedBelow(st: Store, n: nat): Store
  {
    Store(st.tables - TablesBelow(n), st.cache, st.indexes - ListIndexesBelow(n))
  }

  /** The store after creating an empty table for every number below `n` that has none. */
  function CreatedBelow(st: Store, n: nat): Store
  {
    st.(tables := map t | t in st.tables.Keys + TablesBelow(n) :: if t in st.tables then st.tables[t] else map[])
  }

  lemma {:induction false} ApplyDropCommands(st: Store, n: nat)
    ensures ApplyAll(st, DropCommands(n)) == Some(DroppedBelow(st, n))
  {
    if n == 0 {
      assert DroppedBelow(st, 0) == st;
    } else {
      ApplyDropCommands(st, n - 1);
      var pair := [SqlWithTaskId(DropTable, DropTableStmt(n - 1)), SqlWithTaskId(DropIndex, DropIndexStmt(n - 1))];
      DropCommandsSnoc(n - 1);
      ApplyAllAppend(st, DropCommands(n - 1), pair);
      var mid := DroppedBelow(st, n - 1);
      var afterTable := mid.(tables := mid.tables - {n - 1}, indexes := mid.indexes - {ListIndex(n - 1)});
      var afterIndex := afterTable.(indexes := afterTable.indexes - {ListIndex(n - 1)});
      assert ApplyAll(afterTable, pair[1..]) == Some(afterIndex) by {
        assert pair[1..][0] == pair[1];
        assert pair[1..][1..] == [];
      }
      assert ApplyAll(mid, pair) == Some(afterIndex);
      assert afterIndex.tables == DroppedBelow(st, n).tables;
      assert afterIndex.indexes == DroppedBelow(st, n).indexes;
    }
  }

  lemma {:induction false} ApplyCreateTableCommands(st: Store, n: nat)
    ensures ApplyAll(st, CreateTableCommands(n)) == Some(CreatedBelow(st, n))
  {
    if n == 0 {
      assert CreatedBelow(st, 0).tables == st.tables;
    } else {
      ApplyCreateTableCommands(st, n - 1);
      var last := [SqlWithTaskId(CreateTable, CreateTableStmt(n - 1))];
      CreateTableCommandsSnoc(n - 1);
      ApplyAllAppend(st, CreateTableCommands(n - 1), last);
      var mid := CreatedBelow(st, n - 1);
      assert last[1..] == [];
      assert TablesBelow(n) == TablesBelow(n - 1) + {n - 1};
      var next := if n - 1 in mid.tables then mid else mid.(tables := mid.tables[n - 1 := map[]]);
      assert Apply(mid, last[0].sql) == Some(next);
      assert next.tables == CreatedBelow(st, n).tables;
    }
  }

  /** The store the rebuild queue leaves behind. */
  function Rebuilt(st: Store): Store
  {
    CreatedBelow(DroppedBelow(st, TableCount), TableCount)
  }

  lemma ApplyRebuild(st: Store)
    ensures ApplyAll(st, RebuildCommands()) == Some(Rebuilt(st))
  {
    ApplyAllAppend(st, DropCommands(TableCount), CreateTableCommands(TableCount));
    ApplyDropCommands(st, TableCount);
    ApplyCreateTableCommands(DroppedBelow(st, TableCount), TableCount);
  }

  lemma RebuiltIdempotent(st: Store)
    ensures Rebuilt(Rebuilt(st)) == Rebuilt(st)
  {
    var once := Rebuilt(st);
    assert DroppedBelow(once, TableCount).tables == DroppedBelow(st, TableCount).tables;
    assert DroppedBelow(once, TableCount).indexes == DroppedBelow(st, TableCount).indexes;
  }

  /**
    Running the rebuild queue never raises, and from any store it reaches the same state: the
    41 tables exist and are empty, their indexes are gone, the cache is untouched. Running it
    again changes nothing, so rebuilding twice gives what rebuilding once gives.
  */
  lemma RebuildResetsTables(st: Store)
    ensures ApplyAll(st, RebuildCommands()).Some?
    ensures var after := ApplyAll(st, RebuildCommands()).value;
      && (forall t: nat :: t <= LastTable ==> t in after.tables && after.tables[t] == map[])
      && (forall t: nat :: t <= LastTable ==> ListIndex(t) !in after.indexes)
      && after.cache == st.cache
    ensures var after := ApplyAll(st, RebuildCommands()).value;
      ApplyAll(after, RebuildCommands()) == Some(after)
  {
    ApplyRebuild(st);
    ApplyRebuild(Rebuilt(st));
    RebuiltIdempotent(st);
  }

  // ---------------------------------------------------------------------------
  // The command queue
  // ---------------------------------------------------------------------------

  /** True when some record of `queue` carries `taskId`. */
  predicate HasTask(queue: seq<SqlWithTaskId>, taskId: SqlTaskId)
  {
    exists i :: 0 <= i < |queue| && queue[i].taskId == taskId
  }

  /** The queue after `addToCommandSet` offers `sql`: kept at the tail only below the cap. */
  function Offer(queue: seq<SqlWithTaskId>, sql: SqlWithTaskId): (r: seq<SqlWithTaskId>)
  {
    if |queue| < MaxSqlNum then queue + [sql] else queue
  }

  /** The cap: offering never takes a queue that was within the cap beyond it, and never shrinks it. */
  lemma OfferBound(queue: seq<SqlWithTaskId>, sql: SqlWithTaskId)
    ensures |queue| <= MaxSqlNum ==> |Offer(queue, sql)| <= MaxSqlNum
    ensures |Offer(queue, sql)| >= |queue|
    ensures sql in Offer(queue, sql) <==> |queue| < MaxSqlNum || sql in queue
    ensures Offer(queue, sql)[..|queue|] == queue
  {
  }

  /** The statements of a list of records, in order. */
  function Statements(cmds: seq<SqlWithTaskId>): (r: seq<Statement>)
    ensures |r| == |cmds|
    ensures forall i :: 0 <= i < |cmds| ==> r[i] == cmds[i].sql
  {
    seq(|cmds|, i requires 0 <= i < |cmds| => cmds[i].sql)
  }

  /**
    How many statements of a batch of `n` ran before the `SQLException` (all of them if none).
    `Some(f)` names the statement that raised: `Some(0)` when `BEGIN` or the first statement
    raised, `Some(n - 1)` when the last one did. The methods that flush the queue accept only
    such indexes; the function itself caps a larger one at `n`.
  */
  function Executed(failAt: Option<nat>, n: nat): (k: nat)
    ensures k <= n
    ensures failAt.None? ==> k == n
  {
    match failAt
    case None => n
    case Some(f) => if f < n then f else n
  }

  /** `SearchUtil`: the command queue, its flush flag and the statements committed so far. */
  class IndexEngine {
    /** `commandSet`: the queued records, oldest first. */
    var commandSet: seq<SqlWithTaskId>
    /** `isExecuteImmediately`: asks the committer to flush on its next tick. */
    var isExecuteImmediately: bool
    /** Every statement that reached a `COMMIT`, in execution order. */
    var committed: seq<Statement>
    /** The native `GetAscII` checksum of an already normalised name. */
    const nativeAscii: string -> int

    constructor (nativeAscii: string -> int)
      ensures commandSet == [] && !isExecuteImmediately && committed == []
      ensures this.nativeAscii == nativeAscii
    {
      commandSet := [];
      isExecuteImmediately := false;
      committed := [];
      this.nativeAscii := nativeAscii;
    }

    /** `getAscIISum(getFileName(path))`. */
    function PathChecksum(path: string): int
    {
      AsciiSum(Some(FileName(Some(path))), nativeAscii)
    }

    /** `addToCommandSet`: appends below the cap; at the cap refuses the record and raises the flush flag. */
    method AddToCommandSet(sql: SqlWithTaskId)
      modifies this`commandSet, this`isExecuteImmediately
      ensures commandSet == Offer(old(commandSet), sql)
      ensures isExecuteImmediately == (old(isExecuteImmediately) || |old(commandSet)| >= MaxSqlNum)
    {
      if |commandSet| < MaxSqlNum {
        commandSet := commandSet + [sql];
      } else {
        isExecuteImmediately := true;
      }
    }

    /** `addFileToDatabase`: queues the insert record of the path's table, if its group is 0..40. */
    method AddFileToDatabase(path: string)
      modifies this`commandSet, this`isExecuteImmediately
      ensures InsertCommand(PathChecksum(path), path).None? ==>
        commandSet == old(commandSet) && isExecuteImmediately == old(isExecuteImmediately)
      ensures InsertCommand(PathChecksum(path), path).Some? ==>
        && commandSet == Offer(old(commandSet), InsertCommand(PathChecksum(path), path).value)
        && isExecuteImmediately == (old(isExecuteImmediately) || |old(commandSet)| >= MaxSqlNum)
    {
      var asciiSum := AsciiSum(Some(FileName(Some(path))), nativeAscii);
      var command := InsertCommand(asciiSum, path);
      if command.Some? {
        AddToCommandSet(command.value);
      }
    }

    /** `removeFileFromDatabase`: queues the delete record of the path's table, if its group is 0..40. */
    method RemoveFileFromDatabase(path: string)
      modifies this`commandSet, this`isExecuteImmediately
      ensures DeleteCommand(Group(PathChecksum(path)), path).None? ==>
        commandSet == old(commandSet) && isExecuteImmediately == old(isExecuteImmediately)
      ensures DeleteCommand(Group(PathChecksum(path)), path).Some? ==>
        && commandSet == Offer(old(commandSet), DeleteCommand(Group(PathChecksum(path)), path).value)
        && isExecuteImmediately == (old(isExecuteImmediately) || |old(commandSet)| >= MaxSqlNum)
    {
      var asciiSum := AsciiSum(Some(FileName(Some(path))), nativeAscii);
      var asciiGroup := JavaDiv(asciiSum, GroupWidth);
      var command := DeleteCommand(asciiGroup, path);
      if command.Some? {
        AddToCommandSet(command.value);
      }
    }

    /** `addFileToCache`. */
    method AddFileToCache(path: string)
      modifies this`commandSet, this`isExecuteImmediately
      ensures commandSet == Offer(old(commandSet), SqlWithTaskId(InsertToCache, InsertCache(path)))
      ensures isExecuteImmediately == (old(isExecuteImmediately) || |old(commandSet)| >= MaxSqlNum)
    {
      AddToCommandSet(SqlWithTaskId(InsertToCache, InsertCache(path)));
    }

    /** `removeFileFromCache`. */
    method RemoveFileFromCache(path: string)
      modifies this`commandSet, this`isExecuteImmediately
      ensures commandSet == Offer(old(commandSet), SqlWithTaskId(DeleteFromCache, DeleteCache(path)))
      ensures isExecuteImmediately == (old(isExecuteImmediately) || |old(commandSet)| >= MaxSqlNum)
    {
      AddToCommandSet(SqlWithTaskId(DeleteFromCache, DeleteCache(path)));
    }

    /** `executeImmediately`. */
    method ExecuteImmediately()
      modifies this`isExecuteImmediately
      ensures isExecuteImmediately
    {
      isExecuteImmediately := true;
    }

    /**
      `executeAllCommands`: swaps the queue out and runs it as one batch. `failAt` is the number
      of statements that ran before SQLite raised (`None`: none raised). The statements that ran
      are committed either way (the `COMMIT` sits in a `finally`); on a failure every record of
      the batch is put back, in order.
    */
    method ExecuteAllCommands(failAt: Option<nat>)
      requires failAt.Some? ==> failAt.value < |commandSet|
      modifies this`commandSet, this`committed
      ensures old(commandSet) == [] ==> commandSet == [] && committed == old(committed)
      ensures old(commandSet) != [] ==>
        committed == old(committed) + Statements(old(commandSet)[..Executed(failAt, |old(commandSet)|)])
      ensures old(commandSet) != [] && failAt.None? ==> commandSet == []
      ensures old(commandSet) != [] && failAt.Some? ==> commandSet == old(commandSet)
    {
      if |commandSet| > 0 {
        var batch := commandSet;
        commandSet := [];
        var i := 0;
        var failed := false;
        while i < |batch|
          invariant 0 <= i <= |batch|
          invariant !failed ==> i <= Executed(failAt, |batch|)
          invariant failed ==> failAt == Some(i)
          invariant committed == old(committed) + Statements(batch[..i])
          invariant commandSet == []
        {
          if failAt == Some(i) {
            failed := true;
            break;
          }
          committed := committed + [batch[i].sql];
          i := i + 1;
        }
        assert i == Executed(failAt, |batch|);
        if failed || failAt.Some? {
          commandSet := commandSet + batch;
        }
      }
    }

    /** One turn of the committer loop: flush when the flag is raised, lowering it first. */
    method CommitterTick(failAt: Option<nat>)
      requires failAt.Some? ==> failAt.value < |commandSet|
      modifies this`commandSet, this`committed, this`isExecuteImmediately
      ensures !old(isExecuteImmediately) ==> commandSet == old(commandSet) && committed == old(committed)
      ensures !isExecuteImmediately
      ensures old(isExecuteImmediately) && old(commandSet) != [] ==>
        committed == old(committed) + Statements(old(commandSet)[..Executed(failAt, |old(commandSet)|)])
        && commandSet == (if failAt.None? then [] else old(commandSet))
      ensures old(isExecuteImmediately) && old(commandSet) == [] ==> commandSet == [] && committed == old(committed)
    {
      if isExecuteImmediately {
        isExecuteImmediately := false;
        ExecuteAllCommands(failAt);
      }
    }

    /** `isTaskExistInCommandSet`: scans the queue for a record of the task group. */
    method IsTaskExistInCommandSet(taskId: SqlTaskId) returns (found: bool)
      ensures found <==> exists i :: 0 <= i < |commandSet| && commandSet[i].taskId == taskId
    {
      var i := 0;
      while i < |commandSet|
        invariant 0 <= i <= |commandSet|
        invariant forall j :: 0 <= j < i ==> commandSet[j].taskId != taskId
      {
        if commandSet[i].taskId == taskId {
          return true;
        }
        i := i + 1;
      }
      return false;
    }

    /**
      `waitForCommandSet`: polls until no record of the group is queued, giving up once the poll
      counter exceeds 1000. Nothing else runs in this sequential model while it waits, so either
      the group is absent at the first poll or the wait times out; `notMainExit` is the
      program-wide exit flag, read as a constant.
    */
    method WaitForCommandSet(taskId: SqlTaskId, notMainExit: bool) returns (count: nat, timedOut: bool)
      ensures !notMainExit ==> count == 0 && !timedOut
      ensures notMainExit && !HasTask(commandSet, taskId) ==> count == 1 && !timedOut
      ensures notMainExit && HasTask(commandSet, taskId) ==> count == MaxWaitPolls + 1 && timedOut
    {
      count := 0;
      timedOut := false;
      while notMainExit
        invariant count <= MaxWaitPolls
        invariant !notMainExit ==> count == 0
        invariant !timedOut
        invariant count > 0 ==> HasTask(commandSet, taskId)
        decreases MaxWaitPolls + 1 - count
      {
        count := count + 1;
        if count > MaxWaitPolls {
          timedOut := true;
          break;
        }
        var present := IsTaskExistInCommandSet(taskId);
        if !present {
          break;
        }
      }
    }

    /**
      `recreateDatabase`: clears the queue, queues a drop-table and a drop-index record for each
      table 0..40, then a create-table record for each, and raises the flush flag. It adds
      directly to the queue, not through the capped `addToCommandSet`.
    */
    method RecreateDatabase()
      modifies this`commandSet, this`isExecuteImmediately
      ensures commandSet == RebuildCommands()
      ensures isExecuteImmediately
    {
      commandSet := [];
      var i := 0;
      while i <= LastTable
        invariant 0 <= i <= TableCount
        invariant commandSet == DropCommands(i)
      {
        DropCommandsSnoc(i);
        commandSet := commandSet + [SqlWithTaskId(DropTable, DropTableStmt(i)), SqlWithTaskId(DropIndex, DropIndexStmt(i))];
        i := i + 1;
      }
      ghost var drops := commandSet;
      i := 0;
      while i <= LastTable
        invariant 0 <= i <= TableCount
        invariant commandSet == drops + CreateTableCommands(i)
      {
        CreateTableCommandsSnoc(i);
        commandSet := commandSet + [SqlWithTaskId(CreateTable, CreateTableStmt(i))];
        i := i + 1;
      }
      ExecuteImmediately();
    }

    /** `createAllIndex`: appends the cache index and the 41 table indexes, then raises the flush flag. */
    method CreateAllIndex()
      modifies this`commandSet, this`isExecuteImmediately
      ensures commandSet == old(commandSet) + IndexCommands()
      ensures isExecuteImmediately
    {
      commandSet := commandSet + [SqlWithTaskId(CreateIndex, CreateIndexStmt(CacheIndex))];
      ghost var withCache := commandSet;
      var i := 0;
      while i <= LastTable
        invariant 0 <= i <= TableCount
        invariant commandSet == withCache + ListIndexCommands(i)
      {
        ListIndexCommandsSnoc(i);
        commandSet := commandSet + [SqlWithTaskId(CreateIndex, CreateIndexStmt(ListIndex(i)))];
        i := i + 1;
      }
      AppendIndexCommands(old(commandSet));
      ExecuteImmediately();
    }
  }
}
