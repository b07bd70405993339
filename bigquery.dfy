/**
  The BigQuery objects the two expiration scripts work on, as records and
  classes: a `Dataset` or `Table` object fetched from the server is a fresh
  local copy whose fields the scripts assign, and `Client.Update...` sends
  the named fields back. The server's state is the `Client`'s maps; every
  update call is also appended to `calls`.

  Instants are milliseconds since the Unix epoch, in UTC. The rule both
  scripts share for choosing tables is here too.
*/
module BigQuery {
  import opened Wrappers
  import opened Strings
  import opened PySeq

  /** Milliseconds in a day, the factor both scripts use. */
  const MsPerDay := 86400000

  datatype PartitionType = Day | Hour | Month | Year

  /** `bigquery.TimePartitioning`: its type, partition expiration and partitioning column. */
  datatype TimePartitioning = TimePartitioning(kind: PartitionType, expirationMs: Option<int>, field: Option<string>)

  /** What the server holds for a table. */
  datatype TableInfo = TableInfo(expires: Option<int>, partitioning: Option<TimePartitioning>)

  /** One `update_dataset` / `update_table` call: whose fields, and which. */
  datatype Call =
    | UpdateDatasetCall(reference: string, fields: seq<string>)
    | UpdateTableCall(tableId: string, fields: seq<string>)

  /**
    The expiration in milliseconds for `days` days: `None if days == -1
    else days * 86400000`, the dataset default of bq_expire_table.py and
    the partition expiration of bq_expire_partition.py.
  */
  function ExpirationMs(days: int): (r: Option<int>)
    ensures days == -1 <==> r.None?
    ensures r.Some? ==> r.value % MsPerDay == 0 && r.value / MsPerDay == days
  {
    if days == -1 then None else Some(days * MsPerDay)
  }

  /** The reference `get_dataset` is given for a dataset of a project: `f"{project}.{dataset}"`. */
  function DatasetRef(projectId: string, datasetName: string): string {
    projectId + "." + datasetName
  }

  /**
    `bigquery.Dataset`: `reference` is the full `project.dataset` id the
    client keys it by, `datasetId` its `dataset_id`, the dataset's own name
    without the project.
  */
  class Dataset {
    const reference: string
    const datasetId: string
    var defaultTableExpirationMs: Option<int>

    constructor (projectId: string, datasetName: string, ms: Option<int>)
      ensures reference == DatasetRef(projectId, datasetName) && datasetId == datasetName
      ensures defaultTableExpirationMs == ms
    {
      reference := DatasetRef(projectId, datasetName);
      datasetId := datasetName;
      defaultTableExpirationMs := ms;
    }
  }

  class Table {
    const tableId: string
    var expires: Option<int>
    var timePartitioning: Option<TimePartitioning>

    constructor (id: string, info: TableInfo)
      ensures tableId == id && expires == info.expires && timePartitioning == info.partitioning
    {
      tableId := id;
      expires := info.expires;
      timePartitioning := info.partitioning;
    }
  }

  /** The table after an update that sends `fields` of the local copy. */
  function Patch(info: TableInfo, expires: Option<int>, tp: Option<TimePartitioning>, fields: seq<string>): (r: TableInfo)
    ensures r.expires == (if "expires" in fields then expires else info.expires)
    ensures r.partitioning == (if "time_partitioning" in fields then tp else info.partitioning)
  {
    TableInfo(if "expires" in fields then expires else info.expires,
              if "time_partitioning" in fields then tp else info.partitioning)
  }

  /**
    What an update can and cannot do to a table: sending no field, or a
    copy whose sent fields are the server's own, changes nothing; sending
    the same copy twice is sending it once; and the fields not named keep
    the server's values whatever the local copy holds.
  */
  lemma PatchLaws(info: TableInfo, expires: Option<int>, tp: Option<TimePartitioning>, fields: seq<string>)
    ensures Patch(info, expires, tp, []) == info
    ensures Patch(info, info.expires, info.partitioning, fields) == info
    ensures Patch(Patch(info, expires, tp, fields), expires, tp, fields) == Patch(info, expires, tp, fields)
    ensures fields == ["expires"] ==> Patch(info, expires, tp, fields) == info.(expires := expires)
    ensures fields == ["time_partitioning"] ==> Patch(info, expires, tp, fields) == info.(partitioning := tp)
  {
  }

  /**
    `bigquery.Client`, reduced to the dataset's default expirations by
    dataset id, the metadata of the tables of the dataset worked on, and
    the update calls made.
  */
  class Client {
    var datasets: map<string, Option<int>>
    var tables: map<string, TableInfo>
    var calls: seq<Call>

    constructor (datasets0: map<string, Option<int>>, tables0: map<string, TableInfo>)
      ensures datasets == datasets0 && tables == tables0 && calls == []
    {
      datasets := datasets0;
      tables := tables0;
      calls := [];
    }

    /**
      `get_dataset(f"{project}.{dataset}")`: a fresh copy of the dataset, or
      `None` where the server raises `NotFound`.
    */
    method GetDataset(projectId: string, datasetName: string) returns (d: Option<Dataset>)
      ensures d.Some? <==> DatasetRef(projectId, datasetName) in datasets
      ensures d.Some? ==> fresh(d.value) && d.value.reference == DatasetRef(projectId, datasetName)
                          && d.value.datasetId == datasetName
                          && d.value.defaultTableExpirationMs == datasets[DatasetRef(projectId, datasetName)]
    {
      var id := DatasetRef(projectId, datasetName);
      if id in datasets {
        var ds := new Dataset(projectId, datasetName, datasets[id]);
        d := Some(ds);
      } else {
        d := None;
      }
    }

    /** `get_table` for a table the listing named. */
    method GetTable(id: string) returns (t: Table)
      requires id in tables
      ensures fresh(t) && t.tableId == id
      ensures t.expires == tables[id].expires && t.timePartitioning == tables[id].partitioning
    {
      t := new Table(id, tables[id]);
    }

    /** `update_dataset(d, fields)` with `fields == ["default_table_expiration_ms"]`. */
    method UpdateDatasetExpiration(d: Dataset)
      modifies this
      ensures datasets == old(datasets)[d.reference := d.defaultTableExpirationMs]
      ensures tables == old(tables)
      ensures calls == old(calls) + [UpdateDatasetCall(d.reference, ["default_table_expiration_ms"])]
    {
      datasets := datasets[d.reference := d.defaultTableExpirationMs];
      calls := calls + [UpdateDatasetCall(d.reference, ["default_table_expiration_ms"])];
    }

    /** `update_table(t, fields)`: the server takes the named fields of the local copy. */
    method UpdateTable(t: Table, fields: seq<string>)
      requires t.tableId in tables
      modifies this
      ensures tables == old(tables)[t.tableId := Patch(old(tables)[t.tableId], t.expires, t.timePartitioning, fields)]
      ensures datasets == old(datasets)
      ensures calls == old(calls) + [UpdateTableCall(t.tableId, fields)]
    {
      tables := tables[t.tableId := Patch(tables[t.tableId], t.expires, t.timePartitioning, fields)];
      calls := calls + [UpdateTableCall(t.tableId, fields)];
    }
  }

  // ---------------------------------------------------------------- printing

  function WithSuffix(line: string, dryRun: bool): string {
    line + (if dryRun then " [DRYRUN]" else "")
  }

  /** The new number of days as printed: `None` for -1, otherwise the integer. */
  function AfterDays(days: int): string {
    if days == -1 then "None" else IntToString(days)
  }

  /**
    A previous expiration in milliseconds as printed in days: "None" when it
    is missing or zero (both falsy), otherwise the float `ms / 86400000`,
    which Python prints as the whole number and ".0" when the division is
    exact; `showFraction` is the printed form of any other quotient.
  */
  function BeforeDays(ms: Option<int>, showFraction: int -> string): string {
    if ms.None? || ms.value == 0 then "None"
    else if ms.value % MsPerDay == 0 then IntToString(ms.value / MsPerDay) + ".0"
    else showFraction(ms.value)
  }

  /**
    What is printed as the previous expiration after an update with `days`:
    the same number of days (with ".0"), except that removing the
    expiration and setting it to zero days both read "None".
  */
  lemma BeforeDaysAfterUpdate(days: int, showFraction: int -> string)
    ensures days == -1 || days == 0 ==> BeforeDays(ExpirationMs(days), showFraction) == "None"
    ensures days != -1 && days != 0 ==> BeforeDays(ExpirationMs(days), showFraction) == IntToString(days) + ".0"
  {
  }

  // ---------------------------------------------------------------- table selection

  /** `re.match(pattern, s)`: whether the pattern matches at the start of the string. */
  type Matcher = (string, string) -> bool

  /** An optional command-line pattern counts only when given and non-empty. */
  predicate Given(pattern: Option<string>) {
    pattern.Some? && pattern.value != ""
  }

  /**
    The rule both `handle_tables` loops apply before touching a table: a
    table the skip pattern matches is passed over, and otherwise a given
    include pattern must match.
  */
  function Chosen(pattern: Option<string>, skip: Option<string>, matches: Matcher): string -> bool {
    id => !(Given(skip) && matches(skip.value, id)) && (!Given(pattern) || matches(pattern.value, id))
  }

  /**
    The skip pattern takes precedence over the include pattern, a missing
    or empty include pattern chooses every table not skipped, and a table
    is chosen only if neither pattern rules it out — for every pattern
    pair and table name.
  */
  lemma ChosenSpec(pattern: Option<string>, skip: Option<string>, matches: Matcher, id: string)
    ensures Given(skip) && matches(skip.value, id) ==> !Chosen(pattern, skip, matches)(id)
    ensures !Given(pattern) ==> (Chosen(pattern, skip, matches)(id) <==> !(Given(skip) && matches(skip.value, id)))
    ensures !Given(skip) && !Given(pattern) ==> Chosen(pattern, skip, matches)(id)
    ensures Chosen(pattern, skip, matches)(id) && Given(pattern) ==> matches(pattern.value, id)
  {
  }

  // ---------------------------------------------------------------- the handle_tables loop

  /** The server's tables, the update calls made and the lines printed, as a run goes. */
  datatype Run = Run(tables: map<string, TableInfo>, calls: seq<Call>, lines: seq<string>)

  /**
    One pass of a `handle_tables` loop on table `id`. A table `eligible`
    rules out (given its current metadata) changes nothing; an eligible one
    gets its line, `show` of its current metadata, and, unless in a dry
    run, the new metadata `change` gives it and an update call for
    `field`. The listing only names tables of the dataset.
  */
  function Pass(r: Run, id: string, eligible: (string, TableInfo) -> bool, change: TableInfo -> TableInfo,
                field: string, show: (string, TableInfo) -> string, dryRun: bool): Run {
    if id !in r.tables || !eligible(id, r.tables[id]) then r
    else
      Run(if dryRun then r.tables else r.tables[id := change(r.tables[id])],
          if dryRun then r.calls else r.calls + [UpdateTableCall(id, [field])],
          r.lines + [WithSuffix(show(id, r.tables[id]), dryRun)])
  }

  /** The passes over `ids` in listing order. */
  function Passes(r: Run, ids: seq<string>, eligible: (string, TableInfo) -> bool, change: TableInfo -> TableInfo,
                  field: string, show: (string, TableInfo) -> string, dryRun: bool): Run
    decreases |ids|
  {
    if ids == [] then r
    else Pass(Passes(r, ids[..|ids| - 1], eligible, change, field, show, dryRun), ids[|ids| - 1], eligible, change, field, show, dryRun)
  }

  /** A pass only appends to the lines already printed. */
  lemma PassFromEmpty(r: Run, id: string, eligible: (string, TableInfo) -> bool, change: TableInfo -> TableInfo,
                      field: string, show: (string, TableInfo) -> string, dryRun: bool)
    ensures var q := Pass(Run(r.tables, r.calls, []), id, eligible, change, field, show, dryRun);
            Pass(r, id, eligible, change, field, show, dryRun) == Run(q.tables, q.calls, r.lines + q.lines)
  {
  }

  /** The passes over one more table. */
  lemma PassesStep(r: Run, ids: seq<string>, i: nat, eligible: (string, TableInfo) -> bool, change: TableInfo -> TableInfo,
                   field: string, show: (string, TableInfo) -> string, dryRun: bool)
    requires i < |ids|
    ensures Passes(r, ids[..i + 1], eligible, change, field, show, dryRun)
            == Pass(Passes(r, ids[..i], eligible, change, field, show, dryRun), ids[i], eligible, change, field, show, dryRun)
  {
    assert (ids[..i + 1])[..i] == ids[..i];
  }

  /** Eligibility judged on the metadata `m` held before the run. */
  function Selected(m: map<string, TableInfo>, eligible: (string, TableInfo) -> bool): string -> bool {
    id => id in m && eligible(id, m[id])
  }

  /** The update calls for `ids`, in order. */
  function Calls(ids: seq<string>, field: string): (r: seq<Call>)
    ensures |r| == |ids|
    ensures forall k :: 0 <= k < |ids| ==> r[k] == UpdateTableCall(ids[k], [field])
    decreases |ids|
  {
    if ids == [] then [] else Calls(ids[..|ids| - 1], field) + [UpdateTableCall(ids[|ids| - 1], [field])]
  }

  /** The lines printed for `ids`, each showing the metadata `m` held before the run. */
  function Lines(m: map<string, TableInfo>, ids: seq<string>, show: (string, TableInfo) -> string, dryRun: bool): (r: seq<string>)
    requires forall id :: id in ids ==> id in m
    ensures |r| == |ids|
    ensures forall k :: 0 <= k < |ids| ==> r[k] == WithSuffix(show(ids[k], m[ids[k]]), dryRun)
    decreases |ids|
  {
    if ids == [] then []
    else Lines(m, ids[..|ids| - 1], show, dryRun) + [WithSuffix(show(ids[|ids| - 1], m[ids[|ids| - 1]]), dryRun)]
  }

  /** The passes keep the same tables. */
  lemma {:induction false} PassesKeys(r: Run, ids: seq<string>, eligible: (string, TableInfo) -> bool, change: TableInfo -> TableInfo,
                                      field: string, show: (string, TableInfo) -> string, dryRun: bool)
    ensures Passes(r, ids, eligible, change, field, show, dryRun).tables.Keys == r.tables.Keys
    decreases |ids|
  {
    if ids != [] { PassesKeys(r, ids[..|ids| - 1], eligible, change, field, show, dryRun); }
  }

  /**
    Over a listing that names each table of the dataset once, the passes
    keep the same tables and change exactly the listed eligible ones, each
    once, and none at all in a dry run.
  */
  lemma {:induction false} PassesTables(m: map<string, TableInfo>, c: seq<Call>, ids: seq<string>,
                                        eligible: (string, TableInfo) -> bool, change: TableInfo -> TableInfo,
                                        field: string, show: (string, TableInfo) -> string, dryRun: bool, x: string)
    requires forall id :: id in ids ==> id in m
    requires forall i, j :: 0 <= i < j < |ids| ==> ids[i] != ids[j]
    ensures Passes(Run(m, c, []), ids, eligible, change, field, show, dryRun).tables.Keys == m.Keys
    ensures x in m ==> Passes(Run(m, c, []), ids, eligible, change, field, show, dryRun).tables[x]
                       == if !dryRun && x in ids && eligible(x, m[x]) then change(m[x]) else m[x]
    decreases |ids|
  {
    if ids != [] {
      var init, last := ids[..|ids| - 1], ids[|ids| - 1];
      assert ids == init + [last];
      assert last in ids && last !in init;
      PassesTables(m, c, init, eligible, change, field, show, dryRun, x);
      PassesTables(m, c, init, eligible, change, field, show, dryRun, last);
    }
  }

  /** The passes make one update call per listed eligible table, in listing order, and none in a dry run. */
  lemma {:induction false} PassesCalls(m: map<string, TableInfo>, c: seq<Call>, ids: seq<string>,
                                       eligible: (string, TableInfo) -> bool, change: TableInfo -> TableInfo,
                                       field: string, show: (string, TableInfo) -> string, dryRun: bool)
    requires forall id :: id in ids ==> id in m
    requires forall i, j :: 0 <= i < j < |ids| ==> ids[i] != ids[j]
    ensures Passes(Run(m, c, []), ids, eligible, change, field, show, dryRun).calls
            == c + (if dryRun then [] else Calls(Filter(ids, Selected(m, eligible)), field))
    decreases |ids|
  {
    var sel := Selected(m, eligible);
    if ids == [] {
      assert Filter(ids, sel) == [];
    } else {
      var init, last := ids[..|ids| - 1], ids[|ids| - 1];
      assert ids == init + [last];
      assert last in ids && last !in init;
      PassesCalls(m, c, init, eligible, change, field, show, dryRun);
      PassesTables(m, c, init, eligible, change, field, show, dryRun, last);
      var r0 := Passes(Run(m, c, []), init, eligible, change, field, show, dryRun);
      assert Passes(Run(m, c, []), ids, eligible, change, field, show, dryRun) == Pass(r0, last, eligible, change, field, show, dryRun);
      PassCalls(r0, last, m, eligible, change, field, show, dryRun);
      var done := Filter(init, sel);
      FilterSnoc(init, last, sel);
      if sel(last) {
        assert Filter(ids, sel) == done + [last];
        assert (done + [last])[..|done|] == done;
        AppendAssoc(c, Calls(done, field), [UpdateTableCall(last, [field])]);
      } else {
        assert Filter(ids, sel) == done;
      }
    }
  }

  /** The passes print one line per listed eligible table, in listing order, showing what it held before the run. */
  lemma {:induction false} PassesLines(m: map<string, TableInfo>, c: seq<Call>, ids: seq<string>,
                                       eligible: (string, TableInfo) -> bool, change: TableInfo -> TableInfo,
                                       field: string, show: (string, TableInfo) -> string, dryRun: bool)
    requires forall id :: id in ids ==> id in m
    requires forall i, j :: 0 <= i < j < |ids| ==> ids[i] != ids[j]
    ensures forall id :: id in Filter(ids, Selected(m, eligible)) ==> id in m
    ensures Passes(Run(m, c, []), ids, eligible, change, field, show, dryRun).lines
            == Lines(m, Filter(ids, Selected(m, eligible)), show, dryRun)
    decreases |ids|
  {
    var sel := Selected(m, eligible);
    if ids == [] {
      assert Filter(ids, sel) == [];
    } else {
      var init, last := ids[..|ids| - 1], ids[|ids| - 1];
      assert ids == init + [last];
      assert last in ids && last !in init;
      PassesLines(m, c, init, eligible, change, field, show, dryRun);
      PassesTables(m, c, init, eligible, change, field, show, dryRun, last);
      var r0 := Passes(Run(m, c, []), init, eligible, change, field, show, dryRun);
      assert Passes(Run(m, c, []), ids, eligible, change, field, show, dryRun) == Pass(r0, last, eligible, change, field, show, dryRun);
      PassLines(r0, last, m, eligible, change, field, show, dryRun);
      var done := Filter(init, sel);
      FilterSnoc(init, last, sel);
      if sel(last) {
        assert Filter(ids, sel) == done + [last];
        LinesSnoc(m, done, last, show, dryRun);
      } else {
        assert Filter(ids, sel) == done;
      }
    }
  }

  /** One pass prints a line, showing what the metadata held, exactly when the table is eligible. */
  lemma PassLines(r: Run, id: string, m: map<string, TableInfo>, eligible: (string, TableInfo) -> bool,
                  change: TableInfo -> TableInfo, field: string, show: (string, TableInfo) -> string, dryRun: bool)
    requires id in m && id in r.tables && r.tables[id] == m[id]
    ensures Pass(r, id, eligible, change, field, show, dryRun).lines
            == r.lines + (if Selected(m, eligible)(id) then [WithSuffix(show(id, m[id]), dryRun)] else [])
  {
    assert Selected(m, eligible)(id) == eligible(id, m[id]);
  }

  /** One pass makes an update call exactly when the table is eligible and the run is not a dry run. */
  lemma PassCalls(r: Run, id: string, m: map<string, TableInfo>, eligible: (string, TableInfo) -> bool,
                  change: TableInfo -> TableInfo, field: string, show: (string, TableInfo) -> string, dryRun: bool)
    requires id in m && id in r.tables && r.tables[id] == m[id]
    ensures Pass(r, id, eligible, change, field, show, dryRun).calls
            == r.calls + (if !dryRun && Selected(m, eligible)(id) then [UpdateTableCall(id, [field])] else [])
  {
    assert Selected(m, eligible)(id) == eligible(id, m[id]);
  }

  lemma LinesSnoc(m: map<string, TableInfo>, ids: seq<string>, id: string, show: (string, TableInfo) -> string, dryRun: bool)
    requires forall x :: x in ids ==> x in m
    requires id in m
    ensures Lines(m, ids + [id], show, dryRun) == Lines(m, ids, show, dryRun) + [WithSuffix(show(id, m[id]), dryRun)]
  {
    assert (ids + [id])[..|ids|] == ids;
  }
}
