/**
  `bq_expire_table.py`: sets the default table expiration of a BigQuery
  dataset, or the expiration of the dataset's tables chosen by an include
  and a skip pattern, printing one line per change and, in a dry run,
  changing nothing.

  The current time is the parameter `now` and `localOffset` the local
  time's offset from UTC on the machine running the script; `iso` is an
  instant's `isoformat()` text and `showFraction` the printed form of a
  number of days that is not whole. What is printed is returned as lines.
*/
module BqExpireTable {
  import opened Wrappers
  import opened Strings
  import opened PySeq
  import opened BigQuery

  // ---------------------------------------------------------------- set_expiration

  /** The new expiry of a table: `None if days == -1 else utcnow() + timedelta(days=days)`. */
  function NewExpiry(days: int, now: int): (r: Option<int>)
    ensures days == -1 <==> r.None?
    ensures r.Some? ==> (r.value - now) % MsPerDay == 0 && (r.value - now) / MsPerDay == days
  {
    if days == -1 then None else Some(now + days * MsPerDay)
  }

  function DatasetLine(datasetId: string, before: Option<int>, days: int, showFraction: int -> string): string {
    datasetId + ": Expiration Time: " + BeforeDays(before, showFraction) + " days -> " + AfterDays(days) + " days"
  }

  /** `(t - now).days`: whole days from `now` to `t`, rounded down as `timedelta.days` is. */
  function DaysUntil(t: int, now: int): int {
    (t - now) / MsPerDay
  }

  function BeforeText(before: Option<int>, now: int, iso: int -> string): string {
    if before.Some? then iso(before.value) + " (" + IntToString(DaysUntil(before.value, now)) + " days)" else "None"
  }

  function AfterText(after: Option<int>, days: int, iso: int -> string): string {
    if after.Some? then iso(after.value) + " (" + IntToString(days) + " days)" else "None"
  }

  /**
    The instant the script prints as the new expiry, as written: the naive
    `utcnow() + timedelta(days)` is passed to `astimezone(timezone.utc)`,
    which reads a naive time as LOCAL time, so the printed instant is the
    set one shifted by the local offset from UTC (`localOffset`, ms east of
    UTC). The stored expiry is taken as UTC.
  */
  function PrintedExpiryAsWritten(days: int, now: int, localOffset: int): Option<int> {
    if days == -1 then None else Some(now + days * MsPerDay - localOffset)
  }

  /** The line `set_expiration` prints for a table, the new expiry shown as written. */
  function TableLine(tableId: string, before: Option<int>, days: int, now: int, localOffset: int, iso: int -> string): string {
    "Table: " + tableId + ", Expiration Time: " + BeforeText(before, now, iso)
    + " -> " + AfterText(PrintedExpiryAsWritten(days, now, localOffset), days, iso)
  }

  /** The table line as intended: the new expiry shown is the expiry set. */
  function TableLineIntended(tableId: string, before: Option<int>, days: int, now: int, iso: int -> string): string {
    "Table: " + tableId + ", Expiration Time: " + BeforeText(before, now, iso)
    + " -> " + AfterText(NewExpiry(days, now), days, iso)
  }

  /**
    As intended, a table line read at the same instant after the update
    reports as its old expiry what this line reported as its new one. The
    line as written is the intended one on a machine whose local time is
    UTC, and only there prints the expiry set.
  */
  lemma TableLineAfterUpdate(tableId: string, before: Option<int>, days: int, now: int, localOffset: int, iso: int -> string)
    ensures BeforeText(NewExpiry(days, now), now, iso) == AfterText(NewExpiry(days, now), days, iso)
    ensures localOffset == 0 ==> TableLine(tableId, before, days, now, localOffset, iso) == TableLineIntended(tableId, before, days, now, iso)
    ensures days != -1 ==> (PrintedExpiryAsWritten(days, now, localOffset) == NewExpiry(days, now) <==> localOffset == 0)
  {
  }

  /** Away from UTC, the printed new expiry is never the expiry set. */
  lemma PrintedExpiryDiffers(days: int, now: int, localOffset: int)
    requires days != -1 && localOffset != 0
    ensures PrintedExpiryAsWritten(days, now, localOffset) != NewExpiry(days, now)
  {
  }

  /**
    `set_expiration` for a dataset: prints the change under the dataset's
    `dataset_id` and, unless in a dry run, sets the default table
    expiration and sends it to the server.
  */
  method SetDatasetExpiration(client: Client, item: Dataset, days: int, dryRun: bool, showFraction: int -> string)
    returns (line: string)
    modifies client, item
    ensures line == WithSuffix(DatasetLine(item.datasetId, old(item.defaultTableExpirationMs), days, showFraction), dryRun)
    ensures client.tables == old(client.tables)
    ensures dryRun ==> item.defaultTableExpirationMs == old(item.defaultTableExpirationMs)
                       && client.datasets == old(client.datasets) && client.calls == old(client.calls)
    ensures !dryRun ==> item.defaultTableExpirationMs == ExpirationMs(days)
                        && client.datasets == old(client.datasets)[item.reference := ExpirationMs(days)]
                        && client.calls == old(client.calls) + [UpdateDatasetCall(item.reference, ["default_table_expiration_ms"])]
  {
    line := WithSuffix(DatasetLine(item.datasetId, item.defaultTableExpirationMs, days, showFraction), dryRun);
    if !dryRun {
      item.defaultTableExpirationMs := ExpirationMs(days);
      client.UpdateDatasetExpiration(item);
    }
  }

  /**
    `set_expiration` for a table: prints the change and, unless in a dry
    run, sets the table's expiry and sends that one field to the server.
    The printed new expiry is the instant `PrintedExpiryAsWritten` gives.
  */
  method SetTableExpiration(client: Client, item: Table, days: int, dryRun: bool, now: int, localOffset: int,
                            iso: int -> string)
    returns (line: string)
    requires item.tableId in client.tables
    modifies client, item
    ensures line == WithSuffix(TableLine(item.tableId, old(item.expires), days, now, localOffset, iso), dryRun)
    ensures client.datasets == old(client.datasets)
    ensures item.timePartitioning == old(item.timePartitioning)
    ensures dryRun ==> item.expires == old(item.expires)
                       && client.tables == old(client.tables) && client.calls == old(client.calls)
    ensures !dryRun ==> item.expires == NewExpiry(days, now)
                        && client.tables == old(client.tables)[item.tableId := old(client.tables)[item.tableId].(expires := NewExpiry(days, now))]
                        && client.calls == old(client.calls) + [UpdateTableCall(item.tableId, ["expires"])]
  {
    line := WithSuffix(TableLine(item.tableId, item.expires, days, now, localOffset, iso), dryRun);
    if !dryRun {
      item.expires := NewExpiry(days, now);
      client.UpdateTable(item, ["expires"]);
    }
  }

  // ---------------------------------------------------------------- handle_tables

  /** A table is eligible when `Chosen` keeps its name. */
  function ByName(pattern: Option<string>, skip: Option<string>, matches: Matcher): (string, TableInfo) -> bool {
    (id: string, info: TableInfo) => Chosen(pattern, skip, matches)(id)
  }

  /** The metadata change `set_expiration` makes: the new expiry, nothing else. */
  function ExpiryChange(days: int, now: int): TableInfo -> TableInfo {
    (info: TableInfo) => info.(expires := NewExpiry(days, now))
  }

  function ExpiryShow(days: int, now: int, localOffset: int, iso: int -> string): (string, TableInfo) -> string {
    (id: string, info: TableInfo) => TableLine(id, info.expires, days, now, localOffset, iso)
  }

  /**
    One pass of the `handle_tables` loop: fetches the table, passes over it
    when `Chosen` rules it out (the two `continue`s), and otherwise calls
    `set_expiration` on it.
  */
  method HandleTable(client: Client, id: string, days: int, pattern: Option<string>, skip: Option<string>,
                     dryRun: bool, now: int, localOffset: int, iso: int -> string, matches: Matcher)
    returns (printed: seq<string>)
    requires id in client.tables
    modifies client
    ensures client.datasets == old(client.datasets)
    ensures Run(client.tables, client.calls, printed)
            == Pass(Run(old(client.tables), old(client.calls), []), id, ByName(pattern, skip, matches),
                    ExpiryChange(days, now), "expires", ExpiryShow(days, now, localOffset, iso), dryRun)
  {
    var table := client.GetTable(id);
    assert ByName(pattern, skip, matches)(id, client.tables[id]) == Chosen(pattern, skip, matches)(id);
    if Given(skip) && matches(skip.value, table.tableId) {
      assert !ByName(pattern, skip, matches)(id, client.tables[id]);
      return [];
    }
    if Given(pattern) && !matches(pattern.value, table.tableId) {
      assert !ByName(pattern, skip, matches)(id, client.tables[id]);
      return [];
    }
    assert ByName(pattern, skip, matches)(id, client.tables[id]);
    var line := SetTableExpiration(client, table, days, dryRun, now, localOffset, iso);
    printed := [line];
  }

  /**
    `handle_tables`: walks the dataset's tables in listing order (the
    listing names each table of the dataset once), passes over those
    `Chosen` rules out and sets the expiry of the rest. So a table the skip
    pattern matches keeps its expiry whatever the include pattern says, and
    without an include pattern every table not skipped gets the new expiry
    (`ChosenSpec`); a dry run changes nothing and only prints.
  */
  method HandleTables(client: Client, listing: seq<string>, days: int, pattern: Option<string>, skip: Option<string>,
                      dryRun: bool, now: int, localOffset: int, iso: int -> string, matches: Matcher)
    returns (lines: seq<string>)
    requires forall id :: id in listing ==> id in client.tables
    requires forall i, j :: 0 <= i < j < |listing| ==> listing[i] != listing[j]
    modifies client
    ensures client.datasets == old(client.datasets)
    ensures client.tables.Keys == old(client.tables).Keys
    ensures forall x :: x in old(client.tables) ==>
              client.tables[x] == if !dryRun && x in listing && Chosen(pattern, skip, matches)(x)
                                  then old(client.tables)[x].(expires := NewExpiry(days, now)) else old(client.tables)[x]
    ensures var chosen := Filter(listing, Selected(old(client.tables), ByName(pattern, skip, matches)));
            && client.calls == old(client.calls) + (if dryRun then [] else Calls(chosen, "expires"))
            && (forall id :: id in chosen ==> id in old(client.tables))
            && lines == Lines(old(client.tables), chosen, ExpiryShow(days, now, localOffset, iso), dryRun)
  {
    var eligible, change, show := ByName(pattern, skip, matches), ExpiryChange(days, now), ExpiryShow(days, now, localOffset, iso);
    ghost var m, c := client.tables, client.calls;
    lines := [];
    for i := 0 to |listing|
      invariant client.datasets == old(client.datasets)
      invariant Run(client.tables, client.calls, lines) == Passes(Run(m, c, []), listing[..i], eligible, change, "expires", show, dryRun)
    {
      var id := listing[i];
      PassesStep(Run(m, c, []), listing, i, eligible, change, "expires", show, dryRun);
      PassFromEmpty(Run(client.tables, client.calls, lines), id, eligible, change, "expires", show, dryRun);
      PassesKeys(Run(m, c, []), listing[..i], eligible, change, "expires", show, dryRun);
      var printed := HandleTable(client, id, days, pattern, skip, dryRun, now, localOffset, iso, matches);
      lines := lines + printed;
    }
    assert listing[..|listing|] == listing;
    ExpiryPassesSpec(m, c, listing, days, pattern, skip, dryRun, now, localOffset, iso, matches);
  }

  /**
    Over a listing that names each table once, the `handle_tables` passes
    give exactly the chosen tables the new expiry (none in a dry run),
    make one update call per chosen table and print one line per chosen
    table, in listing order.
  */
  lemma ExpiryPassesSpec(m: map<string, TableInfo>, c: seq<Call>, listing: seq<string>, days: int, pattern: Option<string>,
                         skip: Option<string>, dryRun: bool, now: int, localOffset: int, iso: int -> string, matches: Matcher)
    requires forall id :: id in listing ==> id in m
    requires forall i, j :: 0 <= i < j < |listing| ==> listing[i] != listing[j]
    ensures var r := Passes(Run(m, c, []), listing, ByName(pattern, skip, matches), ExpiryChange(days, now), "expires",
                            ExpiryShow(days, now, localOffset, iso), dryRun);
            && r.tables.Keys == m.Keys
            && (forall x :: x in m ==>
                  r.tables[x] == if !dryRun && x in listing && Chosen(pattern, skip, matches)(x)
                                 then m[x].(expires := NewExpiry(days, now)) else m[x])
            && var chosen := Filter(listing, Selected(m, ByName(pattern, skip, matches)));
               && r.calls == c + (if dryRun then [] else Calls(chosen, "expires"))
               && (forall id :: id in chosen ==> id in m)
               && r.lines == Lines(m, chosen, ExpiryShow(days, now, localOffset, iso), dryRun)
  {
    var eligible, change, show := ByName(pattern, skip, matches), ExpiryChange(days, now), ExpiryShow(days, now, localOffset, iso);
    var r := Passes(Run(m, c, []), listing, eligible, change, "expires", show, dryRun);
    PassesTables(m, c, listing, eligible, change, "expires", show, dryRun, "");
    forall x | x in m
      ensures r.tables[x] == if !dryRun && x in listing && Chosen(pattern, skip, matches)(x)
                             then m[x].(expires := NewExpiry(days, now)) else m[x]
    {
      PassesTables(m, c, listing, eligible, change, "expires", show, dryRun, x);
    }
    PassesCalls(m, c, listing, eligible, change, "expires", show, dryRun);
    PassesLines(m, c, listing, eligible, change, "expires", show, dryRun);
  }

  // ---------------------------------------------------------------- main

  datatype Outcome =
    | UsageError                 // `--all-tables` and `--table` together
    | DatasetNotFound(datasetId: string)
    | DatasetSet(line: string)
    | TablesSet(lines: seq<string>)

  /**
    `main`: finds the dataset `project.dataset` and takes exactly one
    branch, changing the dataset's default expiration when neither
    `--all-tables` nor a (non-empty) `--table` pattern is given, and the
    tables otherwise. `listing` is what `list_tables` returns for the
    dataset.
  */
  method ExpireCommand(client: Client, projectId: string, datasetName: string, days: int, allTables: bool,
                       table: Option<string>, skip: Option<string>, dryRun: bool, listing: seq<string>,
                       now: int, localOffset: int, iso: int -> string, showFraction: int -> string, matches: Matcher)
    returns (o: Outcome)
    requires forall id :: id in listing ==> id in client.tables
    requires forall i, j :: 0 <= i < j < |listing| ==> listing[i] != listing[j]
    modifies client
    ensures o.UsageError? <==> allTables && table.Some?
    ensures o.DatasetNotFound? <==> !(allTables && table.Some?) && DatasetRef(projectId, datasetName) !in old(client.datasets)
    ensures o.DatasetSet? <==> !(allTables && table.Some?) && DatasetRef(projectId, datasetName) in old(client.datasets)
                               && !(allTables || Given(table))
    ensures o.UsageError? || o.DatasetNotFound? ==>
              client.datasets == old(client.datasets) && client.tables == old(client.tables) && client.calls == old(client.calls)
    ensures o.DatasetSet? ==>
              o.line == WithSuffix(DatasetLine(datasetName, old(client.datasets)[DatasetRef(projectId, datasetName)], days, showFraction), dryRun)
              && client.tables == old(client.tables)
              && client.datasets == (if dryRun then old(client.datasets)
                                     else old(client.datasets)[DatasetRef(projectId, datasetName) := ExpirationMs(days)])
              && client.calls == old(client.calls) + (if dryRun then []
                                                      else [UpdateDatasetCall(DatasetRef(projectId, datasetName), ["default_table_expiration_ms"])])
    ensures o.TablesSet? <==> !(allTables && table.Some?) && DatasetRef(projectId, datasetName) in old(client.datasets)
                              && (allTables || Given(table))
    ensures o.TablesSet? ==>
              client.datasets == old(client.datasets)
              && client.tables.Keys == old(client.tables).Keys
              && (forall x :: x in old(client.tables) ==>
                    client.tables[x] == if !dryRun && x in listing && Chosen(table, skip, matches)(x)
                                        then old(client.tables)[x].(expires := NewExpiry(days, now)) else old(client.tables)[x])
              && var chosen := Filter(listing, Selected(old(client.tables), ByName(table, skip, matches)));
                 && client.calls == old(client.calls) + (if dryRun then [] else Calls(chosen, "expires"))
                 && (forall id :: id in chosen ==> id in old(client.tables))
                 && o.lines == Lines(old(client.tables), chosen, ExpiryShow(days, now, localOffset, iso), dryRun)
  {
    if allTables && table.Some? {
      return UsageError;
    }
    var found := client.GetDataset(projectId, datasetName);
    if found.None? {
      return DatasetNotFound(DatasetRef(projectId, datasetName));
    }
    var dataset := found.value;
    if !(allTables || Given(table)) {
      var line := SetDatasetExpiration(client, dataset, days, dryRun, showFraction);
      o := DatasetSet(line);
    }
    if allTables || Given(table) {
      var lines := HandleTables(client, listing, days, table, skip, dryRun, now, localOffset, iso, matches);
      o := TablesSet(lines);
    }
  }
}
