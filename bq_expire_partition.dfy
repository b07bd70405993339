/**
  `bq_expire_partition.py`: sets the partition expiration of the
  day-partitioned tables of a BigQuery dataset chosen by an include and a
  skip pattern, printing one line per table and, in a dry run, changing
  nothing. `showFraction` is the printed form of a number of days that is
  not whole.
*/
module BqExpirePartition {
  import opened Wrappers
  import opened Strings
  import opened PySeq
  import opened BigQuery

  // ---------------------------------------------------------------- set_partition_expiration

  predicate DayPartitioned(info: TableInfo) {
    info.partitioning.Some? && info.partitioning.value.kind == Day
  }

  function PartitionLine(tableId: string, before: Option<int>, days: int, showFraction: int -> string): string {
    "Table: " + tableId + ", Partition Expiration Time: " + BeforeDays(before, showFraction) + " days -> " + AfterDays(days) + " days"
  }

  /**
    The partitioning the script sends, as written: a new
    `TimePartitioning(type_=DAY, expiration_ms=...)`, which leaves out the
    table's partitioning column.
  */
  function NewPartitioningAsWritten(days: int): TimePartitioning {
    TimePartitioning(Day, ExpirationMs(days), None)
  }

  /**
    For a table partitioned on a column, the partitioning sent as written
    names no column, so the update asks to change the partitioning column
    (which the server does not allow) instead of only the expiration.
  */
  lemma AsWrittenDropsColumn(tp: TimePartitioning, days: int)
    requires tp.field.Some?
    ensures NewPartitioningAsWritten(days).field != tp.field
    ensures NewPartitioning(tp, days).field == tp.field
  {
  }

  /**
    The evidently intended new partitioning: the table's own, DAY, with
    only the expiration changed (`None` for -1, otherwise `days * 86400000`).
  */
  function NewPartitioning(tp: TimePartitioning, days: int): (r: TimePartitioning)
    ensures r.kind == Day && r.field == tp.field
    ensures r.expirationMs.None? <==> days == -1
    ensures r.expirationMs.Some? ==> r.expirationMs.value / MsPerDay == days
  {
    tp.(kind := Day, expirationMs := ExpirationMs(days))
  }

  /**
    For a table partitioned by ingestion time (no partitioning column) the
    written partitioning is the intended one.
  */
  lemma AsWrittenWithoutColumn(tp: TimePartitioning, days: int)
    requires tp.field.None?
    ensures NewPartitioningAsWritten(days) == NewPartitioning(tp, days)
  {
  }

  /**
    A later run reports what was set: after an update the table is still
    day-partitioned and its line shows the days set (or "None").
  */
  lemma PartitionLineAfterUpdate(days: int, showFraction: int -> string)
    ensures NewPartitioningAsWritten(days).kind == Day
    ensures days != -1 && days != 0 ==>
              BeforeDays(NewPartitioningAsWritten(days).expirationMs, showFraction) == IntToString(days) + ".0"
    ensures days == -1 || days == 0 ==> BeforeDays(NewPartitioningAsWritten(days).expirationMs, showFraction) == "None"
  {
    BeforeDaysAfterUpdate(days, showFraction);
  }

  /**
    `set_partition_expiration`: prints the change and, unless in a dry
    run, sets the table's partitioning to a new DAY partitioning with the
    expiration, as written (no partitioning column), and sends that one
    field to the server. A partitioning without expiration, or with zero,
    prints "None".
  */
  method SetPartitionExpiration(client: Client, table: Table, days: int, dryRun: bool, showFraction: int -> string)
    returns (line: string)
    requires table.tableId in client.tables
    requires table.timePartitioning.Some?
    modifies client, table
    ensures line == WithSuffix(PartitionLine(table.tableId, old(table.timePartitioning).value.expirationMs, days, showFraction), dryRun)
    ensures client.datasets == old(client.datasets) && table.expires == old(table.expires)
    ensures dryRun ==> table.timePartitioning == old(table.timePartitioning)
                       && client.tables == old(client.tables) && client.calls == old(client.calls)
    ensures !dryRun ==> table.timePartitioning == Some(NewPartitioningAsWritten(days))
                        && client.tables == old(client.tables)[table.tableId := old(client.tables)[table.tableId].(partitioning := table.timePartitioning)]
                        && client.calls == old(client.calls) + [UpdateTableCall(table.tableId, ["time_partitioning"])]
  {
    line := WithSuffix(PartitionLine(table.tableId, table.timePartitioning.value.expirationMs, days, showFraction), dryRun);
    if !dryRun {
      table.timePartitioning := Some(NewPartitioningAsWritten(days));
      client.UpdateTable(table, ["time_partitioning"]);
    }
  }

  // ---------------------------------------------------------------- handle_tables

  /** A table is eligible when `Chosen` keeps its name and it is partitioned by DAY. */
  function DayByName(pattern: Option<string>, skip: Option<string>, matches: Matcher): (string, TableInfo) -> bool {
    (id: string, info: TableInfo) => Chosen(pattern, skip, matches)(id) && DayPartitioned(info)
  }

  /** The metadata change `set_partition_expiration` makes: the new partitioning, nothing else. */
  function PartitionChange(days: int): TableInfo -> TableInfo {
    (info: TableInfo) => info.(partitioning := Some(NewPartitioningAsWritten(days)))
  }

  function PartitionShow(days: int, showFraction: int -> string): (string, TableInfo) -> string {
    (id: string, info: TableInfo) =>
      PartitionLine(id, if info.partitioning.Some? then info.partitioning.value.expirationMs else None, days, showFraction)
  }

  /**
    One pass of the `handle_tables` loop: fetches the table, passes over it
    when `Chosen` rules it out (the two `continue`s), and otherwise calls
    `set_partition_expiration` on it if it is partitioned by DAY.
  */
  method HandleTable(client: Client, id: string, days: int, pattern: Option<string>, skip: Option<string>,
                     dryRun: bool, showFraction: int -> string, matches: Matcher)
    returns (printed: seq<string>)
    requires id in client.tables
    modifies client
    ensures client.datasets == old(client.datasets)
    ensures Run(client.tables, client.calls, printed)
            == Pass(Run(old(client.tables), old(client.calls), []), id, DayByName(pattern, skip, matches),
                    PartitionChange(days), "time_partitioning", PartitionShow(days, showFraction), dryRun)
  {
    var table := client.GetTable(id);
    assert DayByName(pattern, skip, matches)(id, client.tables[id])
           == (Chosen(pattern, skip, matches)(id) && DayPartitioned(client.tables[id]));
    if Given(skip) && matches(skip.value, table.tableId) {
      return [];
    }
    if Given(pattern) && !matches(pattern.value, table.tableId) {
      return [];
    }
    if table.timePartitioning.Some? && table.timePartitioning.value.kind == Day {
      var line := SetPartitionExpiration(client, table, days, dryRun, showFraction);
      printed := [line];
    } else {
      printed := [];
    }
  }

  /**
    `handle_tables`: walks the dataset's tables in listing order (the
    listing names each table of the dataset once) and sets the partition
    expiration of each one `Chosen` keeps that is partitioned by DAY; no
    other table is ever changed, and a dry run changes nothing.
  */
  method HandleTables(client: Client, listing: seq<string>, days: int, pattern: Option<string>, skip: Option<string>,
                      dryRun: bool, showFraction: int -> string, matches: Matcher)
    returns (lines: seq<string>)
    requires forall id :: id in listing ==> id in client.tables
    requires forall i, j :: 0 <= i < j < |listing| ==> listing[i] != listing[j]
    modifies client
    ensures client.datasets == old(client.datasets)
    ensures client.tables.Keys == old(client.tables).Keys
    ensures forall x :: x in old(client.tables) ==>
              client.tables[x] == if !dryRun && x in listing && Chosen(pattern, skip, matches)(x) && DayPartitioned(old(client.tables)[x])
                                  then PartitionChange(days)(old(client.tables)[x]) else old(client.tables)[x]
    ensures var chosen := Filter(listing, Selected(old(client.tables), DayByName(pattern, skip, matches)));
            && client.calls == old(client.calls) + (if dryRun then [] else Calls(chosen, "time_partitioning"))
            && (forall id :: id in chosen ==> id in old(client.tables))
            && lines == Lines(old(client.tables), chosen, PartitionShow(days, showFraction), dryRun)
  {
    var eligible, change, show := DayByName(pattern, skip, matches), PartitionChange(days), PartitionShow(days, showFraction);
    ghost var m, c := client.tables, client.calls;
    lines := [];
    for i := 0 to |listing|
      invariant client.datasets == old(client.datasets)
      invariant Run(client.tables, client.calls, lines)
                == Passes(Run(m, c, []), listing[..i], eligible, change, "time_partitioning", show, dryRun)
    {
      var id := listing[i];
      PassesStep(Run(m, c, []), listing, i, eligible, change, "time_partitioning", show, dryRun);
      PassFromEmpty(Run(client.tables, client.calls, lines), id, eligible, change, "time_partitioning", show, dryRun);
      PassesKeys(Run(m, c, []), listing[..i], eligible, change, "time_partitioning", show, dryRun);
      var printed := HandleTable(client, id, days, pattern, skip, dryRun, showFraction, matches);
      lines := lines + printed;
    }
    assert listing[..|listing|] == listing;
    PartitionPassesSpec(m, c, listing, days, pattern, skip, dryRun, showFraction, matches);
  }

  /**
    Over a listing that names each table once, the `handle_tables` passes
    change the partitioning of exactly the chosen DAY-partitioned tables
    (none in a dry run), keep each one day-partitioned with the new
    expiration but, as written, without a partitioning column, and make
    one update call and print one line per such table, in listing order.
  */
  lemma PartitionPassesSpec(m: map<string, TableInfo>, c: seq<Call>, listing: seq<string>, days: int, pattern: Option<string>,
                            skip: Option<string>, dryRun: bool, showFraction: int -> string, matches: Matcher)
    requires forall id :: id in listing ==> id in m
    requires forall i, j :: 0 <= i < j < |listing| ==> listing[i] != listing[j]
    ensures var r := Passes(Run(m, c, []), listing, DayByName(pattern, skip, matches), PartitionChange(days),
                            "time_partitioning", PartitionShow(days, showFraction), dryRun);
            && r.tables.Keys == m.Keys
            && (forall x :: x in m ==>
                  r.tables[x] == if !dryRun && x in listing && Chosen(pattern, skip, matches)(x) && DayPartitioned(m[x])
                                 then PartitionChange(days)(m[x]) else m[x])
            && (forall x :: x in m && r.tables[x] != m[x] ==>
                  DayPartitioned(m[x]) && DayPartitioned(r.tables[x])
                  && r.tables[x].partitioning.value.field.None?
                  && r.tables[x].partitioning.value.expirationMs == ExpirationMs(days)
                  && r.tables[x].expires == m[x].expires)
            && var chosen := Filter(listing, Selected(m, DayByName(pattern, skip, matches)));
               && r.calls == c + (if dryRun then [] else Calls(chosen, "time_partitioning"))
               && (forall id :: id in chosen ==> id in m)
               && r.lines == Lines(m, chosen, PartitionShow(days, showFraction), dryRun)
  {
    var eligible, change, show := DayByName(pattern, skip, matches), PartitionChange(days), PartitionShow(days, showFraction);
    var r := Passes(Run(m, c, []), listing, eligible, change, "time_partitioning", show, dryRun);
    PassesTables(m, c, listing, eligible, change, "time_partitioning", show, dryRun, "");
    forall x | x in m
      ensures r.tables[x] == if !dryRun && x in listing && Chosen(pattern, skip, matches)(x) && DayPartitioned(m[x])
                             then change(m[x]) else m[x]
    {
      PassesTables(m, c, listing, eligible, change, "time_partitioning", show, dryRun, x);
      assert eligible(x, m[x]) == (Chosen(pattern, skip, matches)(x) && DayPartitioned(m[x]));
    }
    PassesCalls(m, c, listing, eligible, change, "time_partitioning", show, dryRun);
    PassesLines(m, c, listing, eligible, change, "time_partitioning", show, dryRun);
  }

  // ---------------------------------------------------------------- main

  datatype Outcome =
    | DatasetNotFound(datasetId: string)
    | Handled(lines: seq<string>)

  /**
    `main`: finds the dataset `project.dataset` and handles its tables;
    a missing dataset changes nothing. `listing` is what `list_tables`
    returns for the dataset.
  */
  method PartitionCommand(client: Client, project: string, dataset: string, days: int, table: Option<string>,
                          skip: Option<string>, dryRun: bool, listing: seq<string>, showFraction: int -> string, matches: Matcher)
    returns (o: Outcome)
    requires forall id :: id in listing ==> id in client.tables
    requires forall i, j :: 0 <= i < j < |listing| ==> listing[i] != listing[j]
    modifies client
    ensures o.DatasetNotFound? <==> DatasetRef(project, dataset) !in old(client.datasets)
    ensures o.DatasetNotFound? ==> client.tables == old(client.tables) && client.calls == old(client.calls)
    ensures client.datasets == old(client.datasets)
    ensures o.Handled? ==>
              client.tables.Keys == old(client.tables).Keys
              && (forall x :: x in old(client.tables) ==>
                    client.tables[x] == if !dryRun && x in listing && Chosen(table, skip, matches)(x) && DayPartitioned(old(client.tables)[x])
                                        then PartitionChange(days)(old(client.tables)[x]) else old(client.tables)[x])
              && var chosen := Filter(listing, Selected(old(client.tables), DayByName(table, skip, matches)));
                 && client.calls == old(client.calls) + (if dryRun then [] else Calls(chosen, "time_partitioning"))
                 && (forall id :: id in chosen ==> id in old(client.tables))
                 && o.lines == Lines(old(client.tables), chosen, PartitionShow(days, showFraction), dryRun)
  {
    var found := client.GetDataset(project, dataset);
    if found.None? {
      return DatasetNotFound(DatasetRef(project, dataset));
    }
    var lines := HandleTables(client, listing, days, table, skip, dryRun, showFraction, matches);
    o := Handled(lines);
  }
}
