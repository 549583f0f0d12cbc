/** Backup of the configuration tables and their restore, table by table. */
module Restore {
  import opened Base

  datatype TableName =
    | ScheduledPrograms
    | SourceCredentials
    | DeliveryTargets
    | MappingTransformation
    | MappingRule
    | MappingValidation
    | MappingSource
    | MappingTargetField
    | TopicDependencies
    | OtherTable(name: string)

  /** In the order in which both handlers go through them. */
  function ConfigTables(): seq<TableName> {
    [ScheduledPrograms, SourceCredentials, DeliveryTargets, MappingTransformation, MappingRule,
     MappingValidation, MappingSource, MappingTargetField, TopicDependencies]
  }

  type Row = map<string, string>

  type Json = string

  /** The configuration tables, and others that refer to none of them. */
  type Tables = map<TableName, multiset<Row>>

  /** A row of program_runs; a run of an immediate job has no program. */
  datatype RunRow = RunRow(id: int, programId: Option<int>, columns: Row)

  /** A row of job_status_events or job_audit_logs. */
  datatype LogRow = LogRow(id: int, runId: Option<int>, columns: Row)

  /** The tables that refer to scheduled_programs, or to its runs, and go with them. */
  datatype History = History(runs: set<RunRow>, events: set<LogRow>, audits: set<LogRow>)

  /**
   What a DELETE of all scheduled programs leaves, by the cascades of docs/architecture/database_schema.md:105-124.
   */
  function WithoutProgramRuns(h: History): History {
    var gone := set r | r in h.runs && r.programId.Some? :: r.id;
    History(set r | r in h.runs && r.programId.None?,
            set l | l in h.events && (l.runId.None? || l.runId.value !in gone),
            set l | l in h.audits && (l.runId.None? || l.runId.value !in gone))
  }

  /** The database's own conversion between a row of a table and a JSON object. */
  datatype Codec = Codec(toJson: (TableName, Row) -> Json, fromJson: (TableName, Json) -> Option<Row>)

  /** Every stored row of the configuration tables survives the conversion to JSON and back. */
  ghost predicate Invertible(c: Codec, tables: Tables) {
    forall t, row | t in tables && !t.OtherTable? && row in tables[t] :: c.fromJson(t, c.toJson(t, row)) == Some(row)
  }

  datatype Payload = Payload(version: string, data: map<TableName, seq<Json>>)

  /** The statements of an import that the database may refuse. */
  datatype Statement = Begin | Clear | Insert(index: nat) | Commit

  type Faults = set<(TableName, Statement)>

  datatype Result = Restored | VersionMismatch | Failed(table: TableName)

  // ----- Meaning

  function Encoded(c: Codec, t: TableName, rows: seq<Row>): seq<Json> {
    if rows == [] then [] else Encoded(c, t, rows[..|rows| - 1]) + [c.toJson(t, rows[|rows| - 1])]
  }

  /** The rows that JSON objects stand for, if all of them are rows of the table. */
  function Decoded(c: Codec, t: TableName, data: seq<Json>): Option<multiset<Row>> {
    if data == [] then
      Some(multiset{})
    else
      var n := |data| - 1;
      var before, row := Decoded(c, t, data[..n]), c.fromJson(t, data[n]);
      if before.Some? && row.Some? then Some(before.value + multiset{row.value}) else None
  }

  ghost predicate IsBackupOf(c: Codec, p: Payload, version: string, tables: Tables) {
    && p.version == version
    && p.data.Keys == ToSet(ConfigTables())
    && forall t <- ConfigTables() :: t in tables && t in p.data && Decoded(c, t, p.data[t]) == Some(tables[t])
  }

  predicate Refused(faults: Faults, t: TableName, rows: nat) {
    || (t, Begin) in faults
    || (t, Clear) in faults
    || (t, Commit) in faults
    || exists i | 0 <= i < rows :: (t, Insert(i)) in faults
  }

  predicate CanImport(c: Codec, tables: Tables, t: TableName, data: seq<Json>, faults: Faults) {
    !t.OtherTable? && t in tables && Decoded(c, t, data).Some? && !Refused(faults, t, |data|)
  }

  /** The steps for the tables `names`, one after another; after a failed step no other is run. */
  function RestoreEach(c: Codec, tables: Tables, p: Payload, faults: Faults, names: seq<TableName>): (Tables, Result) {
    if names == [] then
      (tables, Restored)
    else
      var n := |names| - 1;
      var (before, result) := RestoreEach(c, tables, p, faults, names[..n]);
      if !result.Restored? || names[n] !in p.data then
        (before, result)
      else if CanImport(c, before, names[n], p.data[names[n]], faults) then
        (before[names[n] := Decoded(c, names[n], p.data[names[n]]).value], Restored)
      else
        (before, Failed(names[n]))
  }

  function RestoreAll(c: Codec, tables: Tables, p: Payload, version: string, faults: Faults): (Tables, Result) {
    if p.version != version then (tables, VersionMismatch) else RestoreEach(c, tables, p, faults, ConfigTables())
  }

  /**
   The history after the same steps: clearing scheduled_programs clears its runs, even if the same programs come back.
   */
  function HistoryEach(c: Codec, tables: Tables, h: History, p: Payload, faults: Faults,
      names: seq<TableName>): History {
    if names == [] then
      h
    else
      var n := |names| - 1;
      var (before, result) := RestoreEach(c, tables, p, faults, names[..n]);
      var history := HistoryEach(c, tables, h, p, faults, names[..n]);
      if names[n].ScheduledPrograms? && result.Restored? && names[n] in p.data
         && CanImport(c, before, names[n], p.data[names[n]], faults) then
        WithoutProgramRuns(history)
      else
        history
  }

  function HistoryAll(c: Codec, tables: Tables, h: History, p: Payload, version: string, faults: Faults): History {
    if p.version != version then h else HistoryEach(c, tables, h, p, faults, ConfigTables())
  }

  /** The tables as one statement after another snapshots them: table number `i` as it is in `snapshots[i]`. */
  function AsRead(names: seq<TableName>, snapshots: seq<Tables>): Tables
    requires |snapshots| == |names|
  {
    if names == [] then
      map[]
    else
      var n := |names| - 1;
      var before := AsRead(names[..n], snapshots[..n]);
      if names[n] in snapshots[n] then before[names[n] := snapshots[n][names[n]]] else before
  }

  // ----- The handlers

  class Server {
    const codec: Codec
    const appVersion: string
    var tables: Tables
    var history: History

    constructor (c: Codec, version: string, t: Tables, h: History)
      ensures codec == c && appVersion == version && tables == t && history == h
    {
      codec, appVersion, tables, history := c, version, t, h;
    }

    /** `order` is the order in which the query returns the rows. */
    method ExportConfigTable(t: TableName, order: seq<Row>, fault: bool) returns (results: Option<seq<Json>>)
      requires t in tables ==> multiset(order) == tables[t]
      ensures results.Some? <==> !t.OtherTable? && t in tables && !fault
      ensures results.Some? ==> results.value == Encoded(codec, t, order)
      ensures results.Some? && Invertible(codec, tables) ==> Decoded(codec, t, results.value) == Some(tables[t])
    {
      if t.OtherTable? || t !in tables || fault {
        return None;
      }
      var rows: seq<Json> := [];
      for i := 0 to |order|
        invariant rows == Encoded(codec, t, order[..i])
      {
        rows := rows + [codec.toJson(t, order[i])];
        assert order[..i + 1][..i] == order[..i];
      }
      assert order[..|order|] == order;
      if Invertible(codec, tables) {
        ExportDecodes(codec, t, order, tables);
      }
      results := Some(rows);
    }

    /**
     `snapshots[i]` is what others have made of the tables when the query for table `i` is run; nothing holds them
     still.
     */
    method HandleBackup(snapshots: seq<Tables>, orders: seq<seq<Row>>, faults: set<TableName>)
      returns (payload: Option<Payload>)
      requires |snapshots| == |orders| == |ConfigTables()|
      requires forall i :: 0 <= i < |snapshots| && ConfigTables()[i] in snapshots[i] ==>
               multiset(orders[i]) == snapshots[i][ConfigTables()[i]]
      modifies this`tables
      ensures payload.Some? <==> forall i :: 0 <= i < |snapshots| ==>
              ConfigTables()[i] in snapshots[i] && ConfigTables()[i] !in faults
      ensures payload.Some? ==>
                && payload.value.version == appVersion
                && payload.value.data.Keys == ToSet(ConfigTables())
                && forall i :: 0 <= i < |orders| ==>
                     ConfigTables()[i] in payload.value.data
                     && payload.value.data[ConfigTables()[i]] == Encoded(codec, ConfigTables()[i], orders[i])
      ensures payload.Some? && (forall now <- snapshots :: Invertible(codec, now)) ==>
                IsBackupOf(codec, payload.value, appVersion, AsRead(ConfigTables(), snapshots))
    {
      ConfigTablesAreDistinct();
      hide ConfigTables, Invertible, Decoded, AsRead, Encoded, HoldsExports;
      var data: map<TableName, seq<Json>> := map[];
      var names := ConfigTables();
      NothingExported(codec, names, orders);
      for i := 0 to |names|
        invariant HoldsExports(codec, names, orders, data, i)
        invariant forall j :: 0 <= j < i ==> names[j] in snapshots[j] && names[j] !in faults
      {
        var t := names[i];
        tables := snapshots[i];
        var rows := ExportConfigTable(t, orders[i], t in faults);
        if rows.None? {
          ConfigTablesAre(t);
          return None;
        }
        OneMoreExport(codec, names, orders, data, i);
        data := data[t := rows.value];
      }
      payload := Some(Payload(appVersion, data));
      AllExported(codec, names, orders, data);
      if forall now <- snapshots :: Invertible(codec, now) {
        forall j | 0 <= j < |names|
          ensures !names[j].OtherTable?
        {
          ConfigTablesAre(names[j]);
        }
        ExportsDecode(codec, names, snapshots, orders, data);
      }
      DecodesToRead(codec, names, snapshots, data);
    }

    method ImportConfigTable(t: TableName, data: seq<Json>, faults: Faults) returns (ok: bool)
      modifies this
      ensures ok == CanImport(codec, old(tables), t, data, faults)
      ensures tables == if ok then old(tables)[t := Decoded(codec, t, data).value] else old(tables)
      ensures history == if ok && t.ScheduledPrograms? then WithoutProgramRuns(old(history)) else old(history)
    {
      if t.OtherTable? || (t, Begin) in faults || t !in tables || (t, Clear) in faults {
        return false;
      }
      var rows: multiset<Row> := multiset{};
      for i := 0 to |data|
        invariant Decoded(codec, t, data[..i]) == Some(rows)
        invariant forall j :: 0 <= j < i ==> (t, Insert(j)) !in faults
      {
        var row := codec.fromJson(t, data[i]);
        assert data[..i + 1][..i] == data[..i];
        if row.None? || (t, Insert(i)) in faults {
          if row.None? {
            UndecodablePrefix(codec, t, data, i + 1);
          }
          return false;
        }
        rows := rows + multiset{row.value};
      }
      assert data[..|data|] == data;
      if (t, Commit) in faults {
        return false;
      }
      tables := tables[t := rows];
      if t.ScheduledPrograms? {
        history := WithoutProgramRuns(history);
      }
      ok := true;
    }

    method HandleRestore(payload: Payload, faults: Faults) returns (result: Result)
      modifies this
      ensures (tables, result) == RestoreAll(codec, old(tables), payload, appVersion, faults)
      ensures history == HistoryAll(codec, old(tables), old(history), payload, appVersion, faults)
    {
      if payload.version != appVersion {
        return VersionMismatch;
      }
      hide ConfigTables, CanImport, Decoded, WithoutProgramRuns;
      var names := ConfigTables();
      for i := 0 to |names|
        invariant (tables, Restored) == RestoreEach(codec, old(tables), payload, faults, names[..i])
        invariant history == HistoryEach(codec, old(tables), old(history), payload, faults, names[..i])
      {
        var t := names[i];
        assert names[..i + 1][..i] == names[..i];
        if t in payload.data {
          var ok := ImportConfigTable(t, payload.data[t], faults);
          if !ok {
            StaysStopped(codec, old(tables), payload, faults, names, i + 1);
            return Failed(t);
          }
        }
      }
      assert names[..|names|] == names;
      result := Restored;
    }
  }

  /** The data of a backup once the first `i` tables have been exported. */
  ghost predicate HoldsExports(c: Codec, names: seq<TableName>, orders: seq<seq<Row>>,
      data: map<TableName, seq<Json>>, i: nat) {
    && i <= |names| == |orders|
    && data.Keys == ToSet(names[..i])
    && forall j :: 0 <= j < i ==> names[j] in data && data[names[j]] == Encoded(c, names[j], orders[j])
  }

  lemma NothingExported(c: Codec, names: seq<TableName>, orders: seq<seq<Row>>)
    requires |names| == |orders|
    ensures HoldsExports(c, names, orders, map[], 0)
  {
  }

  lemma OneMoreExport(c: Codec, names: seq<TableName>, orders: seq<seq<Row>>, data: map<TableName, seq<Json>>, i: nat)
    requires HoldsExports(c, names, orders, data, i) && i < |names| && Distinct(names)
    ensures HoldsExports(c, names, orders, data[names[i] := Encoded(c, names[i], orders[i])], i + 1)
  {
    hide Encoded;
    assert names[..i + 1] == names[..i] + [names[i]];
  }

  lemma AllExported(c: Codec, names: seq<TableName>, orders: seq<seq<Row>>, data: map<TableName, seq<Json>>)
    requires HoldsExports(c, names, orders, data, |names|)
    ensures data.Keys == ToSet(names) && |orders| == |names|
    ensures forall i :: 0 <= i < |names| ==> names[i] in data && data[names[i]] == Encoded(c, names[i], orders[i])
  {
    hide Encoded;
    assert names[..|names|] == names;
  }

  lemma ExportDecodes(c: Codec, t: TableName, order: seq<Row>, now: Tables)
    requires t in now && !t.OtherTable? && multiset(order) == now[t] && Invertible(c, now)
    ensures Decoded(c, t, Encoded(c, t, order)) == Some(now[t])
  {
    assert forall row <- order :: row in multiset(order);
    DecodedEncoded(c, t, order);
  }

  lemma ExportsDecode(c: Codec, names: seq<TableName>, snapshots: seq<Tables>, orders: seq<seq<Row>>,
      data: map<TableName, seq<Json>>)
    requires HoldsExports(c, names, orders, data, |names|) && |snapshots| == |names|
    requires forall now <- snapshots :: Invertible(c, now)
    requires forall j :: 0 <= j < |names| ==>
               !names[j].OtherTable? && names[j] in snapshots[j] && multiset(orders[j]) == snapshots[j][names[j]]
    ensures forall j :: 0 <= j < |names| ==>
              names[j] in data && Decoded(c, names[j], data[names[j]]) == Some(snapshots[j][names[j]])
  {
    hide Invertible, Decoded, Encoded;
    forall j | 0 <= j < |names|
      ensures names[j] in data && Decoded(c, names[j], data[names[j]]) == Some(snapshots[j][names[j]])
    {
      assert snapshots[j] in snapshots;
      ExportDecodes(c, names[j], orders[j], snapshots[j]);
    }
  }

  lemma DecodesToRead(c: Codec, names: seq<TableName>, snapshots: seq<Tables>, data: map<TableName, seq<Json>>)
    requires |snapshots| == |names| && Distinct(names)
    requires forall j :: 0 <= j < |names| ==> names[j] in snapshots[j] && names[j] in data
    ensures (forall j :: 0 <= j < |names| ==> Decoded(c, names[j], data[names[j]]) == Some(snapshots[j][names[j]])) ==>
              forall t <- names :: t in AsRead(names, snapshots)
                  && Decoded(c, t, data[t]) == Some(AsRead(names, snapshots)[t])
  {
    hide Decoded, AsRead;
    forall j | 0 <= j < |names|
      ensures names[j] in AsRead(names, snapshots) && AsRead(names, snapshots)[names[j]] == snapshots[j][names[j]]
    {
      AsReadAt(names, snapshots, j);
    }
  }

  lemma ConfigTablesAre(t: TableName)
    ensures t in ConfigTables() <==> !t.OtherTable?
  {
    if !t.OtherTable? {
      var names := ConfigTables();
      assert names[0] == ScheduledPrograms && names[1] == SourceCredentials && names[2] == DeliveryTargets;
      assert names[3] == MappingTransformation && names[4] == MappingRule && names[5] == MappingValidation;
      assert names[6] == MappingSource && names[7] == MappingTargetField && names[8] == TopicDependencies;
    }
  }

  lemma ConfigTablesAreDistinct()
    ensures Distinct(ConfigTables())
  {
  }

  /** The nine tables in the order of both handlers. */
  lemma ConfigTablesInOrder()
    ensures var names := ConfigTables();
            && |names| == 9
            && names[0] == ScheduledPrograms && names[1] == SourceCredentials && names[2] == DeliveryTargets
            && names[3] == MappingTransformation && names[4] == MappingRule && names[5] == MappingValidation
            && names[6] == MappingSource && names[7] == MappingTargetField && names[8] == TopicDependencies
  {
  }

  lemma {:induction false} DecodedEncoded(c: Codec, t: TableName, rows: seq<Row>)
    requires forall row <- rows :: c.fromJson(t, c.toJson(t, row)) == Some(row)
    ensures Decoded(c, t, Encoded(c, t, rows)) == Some(multiset(rows))
  {
    if rows != [] {
      var n := |rows| - 1;
      assert rows == rows[..n] + [rows[n]] && rows[n] in rows;
      assert forall row <- rows[..n] :: row in rows;
      DecodedEncoded(c, t, rows[..n]);
      var all := Encoded(c, t, rows);
      assert all[..|all| - 1] == Encoded(c, t, rows[..n]);
    }
  }

  /** Each row stands at its place. */
  lemma {:induction false} EncodedRows(c: Codec, t: TableName, rows: seq<Row>)
    ensures |Encoded(c, t, rows)| == |rows|
    ensures forall i :: 0 <= i < |rows| ==> Encoded(c, t, rows)[i] == c.toJson(t, rows[i])
  {
    if rows != [] {
      EncodedRows(c, t, rows[..|rows| - 1]);
    }
  }

  /** JSON objects decode exactly if each of them does. */
  lemma {:induction false} DecodedIff(c: Codec, t: TableName, data: seq<Json>)
    ensures Decoded(c, t, data).Some? <==> forall i :: 0 <= i < |data| ==> c.fromJson(t, data[i]).Some?
  {
    if data != [] {
      var n := |data| - 1;
      DecodedIff(c, t, data[..n]);
      assert forall i | 0 <= i < n :: data[..n][i] == data[i];
    }
  }

  /** And then to those rows, each as often as it comes. */
  lemma {:induction false} DecodedRows(c: Codec, t: TableName, data: seq<Json>, rows: seq<Row>)
    requires |rows| == |data| && forall i :: 0 <= i < |data| ==> c.fromJson(t, data[i]) == Some(rows[i])
    ensures Decoded(c, t, data) == Some(multiset(rows))
  {
    if data != [] {
      var n := |data| - 1;
      DecodedRows(c, t, data[..n], rows[..n]);
      assert rows == rows[..n] + [rows[n]];
    }
  }

  lemma {:induction false} UndecodablePrefix(c: Codec, t: TableName, data: seq<Json>, k: nat)
    requires k <= |data| && Decoded(c, t, data[..k]).None?
    ensures Decoded(c, t, data).None?
  {
    if k == |data| {
      assert data[..k] == data;
    } else {
      assert data[..|data| - 1][..k] == data[..k];
      UndecodablePrefix(c, t, data[..|data| - 1], k);
    }
  }

  lemma {:induction false} StaysStopped(c: Codec, tables: Tables, p: Payload, faults: Faults, names: seq<TableName>,
      k: nat)
    requires k <= |names| && !RestoreEach(c, tables, p, faults, names[..k]).1.Restored?
    ensures RestoreEach(c, tables, p, faults, names) == RestoreEach(c, tables, p, faults, names[..k])
    ensures forall h :: HistoryEach(c, tables, h, p, faults, names) == HistoryEach(c, tables, h, p, faults, names[..k])
  {
    if k == |names| {
      assert names[..k] == names;
    } else {
      assert names[..|names| - 1][..k] == names[..k];
      StaysStopped(c, tables, p, faults, names[..|names| - 1], k);
    }
  }

  // ----- What a restore amounts to

  /** The tables `names` that the payload holds have its contents, and all other tables are as they were. */
  ghost predicate HoldsBackup(c: Codec, tables: Tables, p: Payload, names: set<TableName>, after: Tables) {
    && after.Keys == tables.Keys
    && forall t <- tables :: t in after &&
          if t in names && t in p.data then Decoded(c, t, p.data[t]) == Some(after[t]) else after[t] == tables[t]
  }

  predicate Passes(c: Codec, tables: Tables, p: Payload, faults: Faults, t: TableName) {
    t in p.data ==> CanImport(c, tables, t, p.data[t], faults)
  }

  ghost predicate AllPass(c: Codec, tables: Tables, p: Payload, faults: Faults, names: seq<TableName>) {
    forall t <- names :: Passes(c, tables, p, faults, t)
  }

  lemma OneMoreName(c: Codec, tables: Tables, p: Payload, faults: Faults, names: seq<TableName>)
    requires names != []
    ensures var n := |names| - 1;
            && (AllPass(c, tables, p, faults, names) <==>
                  AllPass(c, tables, p, faults, names[..n]) && Passes(c, tables, p, faults, names[n]))
            && ToSet(names) == ToSet(names[..n]) + {names[n]}
  {
    hide Passes;
    var n := |names| - 1;
    assert names == names[..n] + [names[n]];
    assert names[n] in names;
    assert forall t <- names[..n] :: t in names;
  }

  /** The steps go through exactly if each table could be imported to begin with, and then do what they should. */
  lemma {:induction false} EachStep(c: Codec, tables: Tables, p: Payload, faults: Faults, names: seq<TableName>)
    ensures var (after, result) := RestoreEach(c, tables, p, faults, names);
            && (result.Restored? <==> AllPass(c, tables, p, faults, names))
            && (result.Restored? ==> HoldsBackup(c, tables, p, ToSet(names), after))
  {
    hide Refused;
    if names != [] {
      var n := |names| - 1;
      EachStep(c, tables, p, faults, names[..n]);
      OneMoreName(c, tables, p, faults, names);
      hide AllPass, ToSet, Decoded;
    }
  }

  /**
   Where it stops: the earliest table that cannot be imported. Those before it hold the backup, it and the rest do not
   change.
   */
  lemma {:induction false} StopsAtFirst(c: Codec, tables: Tables, p: Payload, faults: Faults, names: seq<TableName>)
    returns (k: nat)
    requires !RestoreEach(c, tables, p, faults, names).1.Restored?
    ensures k < |names| && RestoreEach(c, tables, p, faults, names).1 == Failed(names[k])
    ensures AllPass(c, tables, p, faults, names[..k]) && !Passes(c, tables, p, faults, names[k])
    ensures HoldsBackup(c, tables, p, ToSet(names[..k]), RestoreEach(c, tables, p, faults, names).0)
  {
    var n := |names| - 1;
    var prefix := RestoreEach(c, tables, p, faults, names[..n]);
    if prefix.1.Restored? {
      k := n;
      EachStep(c, tables, p, faults, names[..n]);
      EachStep(c, tables, p, faults, names);
      OneMoreName(c, tables, p, faults, names);
    } else {
      k := StopsAtFirst(c, tables, p, faults, names[..n]);
      assert names[..n][..k] == names[..k];
    }
  }

  /** Two tables that hold the same backup over the same old contents are the same. */
  lemma BackupHeldIsUnique(c: Codec, tables: Tables, p: Payload, names: set<TableName>, a: Tables, b: Tables)
    requires HoldsBackup(c, tables, p, names, a) && HoldsBackup(c, tables, p, names, b)
    ensures a == b
  {
    forall t <- tables
      ensures a[t] == b[t]
    {
    }
  }

  /**
   A table can be imported exactly if it is one of the nine and there, each of its objects is a row of it, and the
   database refuses neither BEGIN, nor the DELETE, nor one of the INSERTs, nor COMMIT.
   */
  lemma CanImportIff(c: Codec, tables: Tables, t: TableName, data: seq<Json>, faults: Faults)
    ensures CanImport(c, tables, t, data, faults) <==>
            && !t.OtherTable? && t in tables
            && (forall i :: 0 <= i < |data| ==> c.fromJson(t, data[i]).Some?)
            && (t, Begin) !in faults && (t, Clear) !in faults && (t, Commit) !in faults
            && (forall i :: 0 <= i < |data| ==> (t, Insert(i)) !in faults)
  {
    DecodedIff(c, t, data);
    hide Decoded;
  }

  /** A backup of another version is refused before anything is touched. */
  lemma OtherVersionIsRefused(c: Codec, now: Tables, h: History, p: Payload, version: string, faults: Faults)
    ensures RestoreAll(c, now, p, version, faults).1.VersionMismatch? <==> p.version != version
    ensures p.version != version ==>
              RestoreAll(c, now, p, version, faults) == (now, VersionMismatch)
              && HistoryAll(c, now, h, p, version, faults) == h
  {
    EachEnds(c, now, p, faults, ConfigTables());
    hide ConfigTables, RestoreEach;
  }

  lemma {:induction false} EachEnds(c: Codec, tables: Tables, p: Payload, faults: Faults, names: seq<TableName>)
    ensures !RestoreEach(c, tables, p, faults, names).1.VersionMismatch?
  {
    hide CanImport, Decoded;
    if names != [] {
      EachEnds(c, tables, p, faults, names[..|names| - 1]);
    }
  }

  /**
   A backup of the same version restored into any later state of the tables brings all nine back, unless the
   database refuses a statement. Of the other tables those stay as they are that do not refer to these nine.
   */
  lemma RestoreReproduces(c: Codec, source: Tables, now: Tables, p: Payload, version: string, faults: Faults)
    requires IsBackupOf(c, p, version, source) && ToSet(ConfigTables()) <= now.Keys
    ensures var (after, result) := RestoreAll(c, now, p, version, faults);
            && (result.Restored? <==>
                forall t <- ConfigTables() ::
                  && (t, Begin) !in faults && (t, Clear) !in faults && (t, Commit) !in faults
                  && forall i :: 0 <= i < |p.data[t]| ==> (t, Insert(i)) !in faults)
            && (result.Restored? ==> after == map t <- now :: if t in ConfigTables() then source[t] else now[t])
  {
    hide ConfigTables, CanImport, Decoded;
    var names := ConfigTables();
    EachStep(c, now, p, faults, names);
    forall t <- names
      ensures Passes(c, now, p, faults, t) <==>
              && (t, Begin) !in faults && (t, Clear) !in faults && (t, Commit) !in faults
              && forall i :: 0 <= i < |p.data[t]| ==> (t, Insert(i)) !in faults
    {
      assert t in ToSet(names);
      ConfigTablesAre(t);
      CanImportIff(c, now, t, p.data[t], faults);
      DecodedIff(c, t, p.data[t]);
    }
  }

  lemma {:induction false} HistoryFromFirst(c: Codec, tables: Tables, h: History, p: Payload, faults: Faults,
      names: seq<TableName>)
    requires Distinct(names) && names != [] && names[0] == ScheduledPrograms
    ensures HistoryEach(c, tables, h, p, faults, names) ==
            if Passes(c, tables, p, faults, ScheduledPrograms) && ScheduledPrograms in p.data then
                WithoutProgramRuns(h) else h
  {
    hide CanImport, WithoutProgramRuns;
    if |names| > 1 {
      HistoryFromFirst(c, tables, h, p, faults, names[..|names| - 1]);
      assert names[|names| - 1] != names[0];
    }
  }

  /**
   What a restore costs: whether it succeeds or stops later, it has cleared the runs of all scheduled programs with
   their events and audit logs exactly if it could import scheduled_programs.
   */
  lemma RestoreCostsTheHistory(c: Codec, now: Tables, h: History, p: Payload, version: string, faults: Faults)
    ensures HistoryAll(c, now, h, p, version, faults) ==
            if p.version == version && ScheduledPrograms in p.data
                && CanImport(c, now, ScheduledPrograms, p.data[ScheduledPrograms], faults)
            then WithoutProgramRuns(h) else h
  {
    ConfigTablesAreDistinct();
    assert ConfigTables()[0] == ScheduledPrograms;
    HistoryFromFirst(c, now, h, p, faults, ConfigTables());
    hide ConfigTables, CanImport, WithoutProgramRuns;
  }

  /** So a successful restore of a backup keeps exactly the runs without a program, and the entries of no other run. */
  lemma RestoredHistory(c: Codec, source: Tables, now: Tables, h: History, p: Payload, version: string, faults: Faults)
    requires IsBackupOf(c, p, version, source) && RestoreAll(c, now, p, version, faults).1.Restored?
    requires forall r <- h.runs, q <- h.runs :: r.id == q.id ==> r == q
    ensures var after := HistoryAll(c, now, h, p, version, faults);
            && (forall r :: r in after.runs <==> r in h.runs && r.programId.None?)
            && (forall l :: l in after.events <==>
                l in h.events && !(exists r :: r in h.runs && r.programId.Some? && l.runId == Some(r.id)))
            && (forall l :: l in after.audits <==>
                l in h.audits && !(exists r :: r in h.runs && r.programId.Some? && l.runId == Some(r.id)))
  {
    RestoreCostsTheHistory(c, now, h, p, version, faults);
    EachStep(c, now, p, faults, ConfigTables());
    ConfigTablesAre(ScheduledPrograms);
    assert ScheduledPrograms in ToSet(ConfigTables());
    assert Passes(c, now, p, faults, ScheduledPrograms);
    hide ConfigTables, CanImport, Decoded, RestoreEach, HistoryEach;
  }

  lemma {:induction false} AsReadAt(names: seq<TableName>, snapshots: seq<Tables>, i: nat)
    requires |snapshots| == |names| && Distinct(names) && i < |names|
    ensures names[i] in AsRead(names, snapshots) <==> names[i] in snapshots[i]
    ensures names[i] in snapshots[i] ==> AsRead(names, snapshots)[names[i]] == snapshots[i][names[i]]
    decreases |names|
  {
    var n := |names| - 1;
    if i < n {
      AsReadAt(names[..n], snapshots[..n], i);
      assert names[..n][i] == names[i] && snapshots[..n][i] == snapshots[i];
    } else {
      AsReadKeys(names[..n], snapshots[..n], names[n]);
    }
  }

  lemma {:induction false} AsReadKeys(names: seq<TableName>, snapshots: seq<Tables>, t: TableName)
    requires |snapshots| == |names|
    ensures t in AsRead(names, snapshots) ==> t in names
  {
    if names != [] {
      var n := |names| - 1;
      AsReadKeys(names[..n], snapshots[..n], t);
    }
  }

  /** What a backup holds is the state `s` exactly if no table differed from `s` when its turn came. */
  lemma ReadStateIff(names: seq<TableName>, snapshots: seq<Tables>, s: Tables)
    requires |snapshots| == |names| && Distinct(names) && forall t <- names :: t in s
    ensures (forall t <- names :: t in AsRead(names, snapshots) && AsRead(names, snapshots)[t] == s[t]) <==>
            (forall i :: 0 <= i < |names| ==> names[i] in snapshots[i] && snapshots[i][names[i]] == s[names[i]])
  {
    hide AsRead;
    forall i | 0 <= i < |names|
      ensures names[i] in AsRead(names, snapshots) <==> names[i] in snapshots[i]
      ensures names[i] in snapshots[i] ==> AsRead(names, snapshots)[names[i]] == snapshots[i][names[i]]
    {
      AsReadAt(names, snapshots, i);
    }
    assert forall i :: 0 <= i < |names| ==> names[i] in names;
  }

  /**
   A restore that stops at a table: the tables before it that the payload holds have its contents, the table
   itself and all later ones have their old contents.
   */
  lemma StoppedRestore(c: Codec, now: Tables, p: Payload, faults: Faults) returns (k: nat)
    requires !RestoreAll(c, now, p, p.version, faults).1.Restored?
    ensures k < |ConfigTables()| && RestoreAll(c, now, p, p.version, faults).1 == Failed(ConfigTables()[k])
    ensures ConfigTables()[k] in p.data && !CanImport(c, now, ConfigTables()[k], p.data[ConfigTables()[k]], faults)
    ensures var after := RestoreAll(c, now, p, p.version, faults).0;
            && after.Keys == now.Keys
            && (forall j | 0 <= j < k && ConfigTables()[j] in p.data ::
                  ConfigTables()[j] in now
                      && Decoded(c, ConfigTables()[j], p.data[ConfigTables()[j]]) == Some(after[ConfigTables()[j]]))
            && (forall t <- now | t !in p.data || t !in ConfigTables()[..k] :: after[t] == now[t])
            && (forall j | k <= j < |ConfigTables()| :: ConfigTables()[j] !in ConfigTables()[..k])
  {
    ConfigTablesAreDistinct();
    hide ConfigTables, Decoded, Refused;
    var names := ConfigTables();
    k := StopsAtFirst(c, now, p, faults, names);
    forall j | 0 <= j < k && names[j] in p.data
      ensures names[j] in now
              && Decoded(c, names[j], p.data[names[j]]) == Some(RestoreAll(c, now, p, p.version, faults).0[names[j]])
    {
      assert names[j] in names[..k];
      assert Passes(c, now, p, faults, names[j]);
    }
  }

  /** A restore that has stopped can be run again: it then ends as if it had not stopped before. */
  lemma RetryCompletes(c: Codec, now: Tables, p: Payload, version: string, first: Faults, second: Faults)
    ensures var stopped := RestoreAll(c, now, p, version, first).0;
            var (again, once) := (RestoreAll(c, stopped, p, version, second), RestoreAll(c, now, p, version, second));
            (again.1.Restored? <==> once.1.Restored?) && (once.1.Restored? ==> again == once)
  {
    if p.version == version {
      RetryEach(c, now, p, first, second, ConfigTables());
    }
  }

  lemma RetryEach(c: Codec, now: Tables, p: Payload, first: Faults, second: Faults, names: seq<TableName>)
    ensures var stopped := RestoreEach(c, now, p, first, names).0;
            var (again, once) := (RestoreEach(c, stopped, p, second, names), RestoreEach(c, now, p, second, names));
            (again.1.Restored? <==> once.1.Restored?) && (once.1.Restored? ==> again == once)
  {
    hide RestoreEach, Refused, Decoded, HoldsBackup;
    var (stopped, result) := RestoreEach(c, now, p, first, names);
    EachStep(c, now, p, second, names);
    EachStep(c, stopped, p, second, names);
    ghost var done := names;
    if result.Restored? {
      EachStep(c, now, p, first, names);
    } else {
      var k := StopsAtFirst(c, now, p, first, names);
      done := names[..k];
    }
    HeldOver(c, now, p, ToSet(done), ToSet(names), stopped, RestoreEach(c, stopped, p, second, names).0);
    if RestoreEach(c, now, p, second, names).1.Restored? {
      BackupHeldIsUnique(c, now, p, ToSet(names), RestoreEach(c, now, p, second, names).0,
          RestoreEach(c, stopped, p, second, names).0);
    }
  }

  /** More of the backup over some of it. */
  lemma HeldOver(c: Codec, now: Tables, p: Payload, some: set<TableName>, all: set<TableName>, mid: Tables,
      after: Tables)
    requires HoldsBackup(c, now, p, some, mid) && some <= all
    ensures mid.Keys == now.Keys
    ensures HoldsBackup(c, mid, p, all, after) ==> HoldsBackup(c, now, p, all, after)
  {
    hide Decoded;
  }
}
