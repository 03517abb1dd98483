/**
 * The decision logic of the BigQuery loader: the load-job configuration built from
 * the optional partitioning, clustering and disposition arguments, and the arguments
 * `load_dataframe_to_bq` hands to `pandas_gbq.to_gbq`.
 *
 * Python truthiness is explicit: an optional string or list counts as given only when
 * it is present and non-empty (`Present`).
 */
module Gbq {
  import opened Wrappers

  const CreateIfNeeded: string := "CREATE_IF_NEEDED"
  const TimePartitioningKey: string := "timePartitioning"
  const ClusteringKey: string := "clustering"
  const CreateDispositionKey: string := "createDisposition"
  const WriteDispositionKey: string := "writeDisposition"
  const LoadKey: string := "load"

  /** The JSON values a load-job configuration is made of. */
  datatype Value = Str(s: string) | StrList(items: seq<string>) | Dict(entries: map<string, Value>)

  /** The keys a load-job configuration may hold. */
  function ConfigKeys(): set<string>
  {
    {TimePartitioningKey, ClusteringKey, CreateDispositionKey, WriteDispositionKey}
  }

  /** `{"type": "DAY", "field": field}`: daily time partitioning on `field`. */
  function DayPartitioning(field: string): Value
  {
    Dict(map["type" := Str("DAY"), "field" := Str(field)])
  }

  /** `{"fields": list(fields)}`: clustering on `fields`, in the given order. */
  function ClusteringOn(fields: seq<string>): Value
  {
    Dict(map["fields" := StrList(fields)])
  }

  /**
   * `_build_bq_load_job_config`. No configuration at all exactly when partitioning,
   * clustering and write disposition are all absent and the create disposition is the
   * default; otherwise one entry per argument that is given (an empty create
   * disposition counts as not given), with the argument's value, and nothing else.
   */
  function LoadJobConfig(partitionField: Option<string>, clusteringFields: Option<seq<string>>,
                         createDisposition: string, writeDisposition: Option<string>)
    : (cfg: Option<map<string, Value>>)
    ensures cfg.None? <==>
      !Present(partitionField) && !Present(clusteringFields) && !Present(writeDisposition)
      && createDisposition == CreateIfNeeded
    ensures cfg.Some? ==> var m := cfg.value;
      && m.Keys <= ConfigKeys()
      && (TimePartitioningKey in m <==> Present(partitionField))
      && (TimePartitioningKey in m ==> m[TimePartitioningKey] == DayPartitioning(partitionField.value))
      && (ClusteringKey in m <==> Present(clusteringFields))
      && (ClusteringKey in m ==> m[ClusteringKey] == ClusteringOn(clusteringFields.value))
      && (CreateDispositionKey in m <==> createDisposition != "")
      && (CreateDispositionKey in m ==> m[CreateDispositionKey] == Str(createDisposition))
      && (WriteDispositionKey in m <==> Present(writeDisposition))
      && (WriteDispositionKey in m ==> m[WriteDispositionKey] == Str(writeDisposition.value))
  {
    if !(Present(partitionField) || Present(clusteringFields) || Present(writeDisposition))
       && createDisposition == CreateIfNeeded
    then None
    else
      var m0: map<string, Value> := map[];
      var m1 := if Present(partitionField)
        then m0[TimePartitioningKey := DayPartitioning(partitionField.value)] else m0;
      var m2 := if Present(clusteringFields)
        then m1[ClusteringKey := ClusteringOn(clusteringFields.value)] else m1;
      var m3 := if createDisposition != ""
        then m2[CreateDispositionKey := Str(createDisposition)] else m2;
      var m4 := if Present(writeDisposition)
        then m3[WriteDispositionKey := Str(writeDisposition.value)] else m3;
      Some(m4)
  }

  /**
   * `_build_bq_load_job_config` as the source runs it: the early return, then one
   * conditional insert into `cfg` per argument.
   */
  method BuildLoadJobConfig(partitionField: Option<string>, clusteringFields: Option<seq<string>>,
                            createDisposition: string, writeDisposition: Option<string>)
    returns (cfg: Option<map<string, Value>>)
    ensures cfg == LoadJobConfig(partitionField, clusteringFields, createDisposition, writeDisposition)
  {
    if !(Present(partitionField) || Present(clusteringFields) || Present(writeDisposition))
       && createDisposition == CreateIfNeeded {
      return None;
    }
    var m: map<string, Value> := map[];
    if Present(partitionField) {
      m := m[TimePartitioningKey := DayPartitioning(partitionField.value)];
    }
    if Present(clusteringFields) {
      m := m[ClusteringKey := ClusteringOn(clusteringFields.value)];
    }
    if createDisposition != "" {
      m := m[CreateDispositionKey := Str(createDisposition)];
    }
    if Present(writeDisposition) {
      m := m[WriteDispositionKey := Str(writeDisposition.value)];
    }
    cfg := Some(m);
  }

  /** The keyword arguments of `load_dataframe_to_bq`, without the data frame itself. */
  datatype LoadArgs = LoadArgs(
    projectId: string,
    datasetId: string,
    tableId: string,
    ifExists: string,
    location: string,
    schema: Option<seq<Value>>,
    partitionField: Option<string>,
    clusteringFields: Option<seq<string>>,
    createDisposition: string,
    writeDisposition: Option<string>)

  /** The call with every optional argument left at its default. */
  function DefaultLoadArgs(projectId: string, datasetId: string, tableId: string): LoadArgs
  {
    LoadArgs(projectId, datasetId, tableId, "append", "US", None, None, None, CreateIfNeeded, None)
  }

  /** The keyword arguments `load_dataframe_to_bq` passes to `to_gbq`, without the data frame. */
  datatype ToGbqCall = ToGbqCall(
    destinationTable: string,
    projectId: string,
    ifExists: string,
    location: string,
    tableSchema: Option<seq<Value>>,
    apiMethod: string,
    configuration: Option<map<string, Value>>)

  /** The configuration built from `args`. */
  function ConfigOf(args: LoadArgs): Option<map<string, Value>>
  {
    LoadJobConfig(args.partitionField, args.clusteringFields, args.createDisposition, args.writeDisposition)
  }

  /**
   * The `to_gbq` call of `load_dataframe_to_bq`: the destination is "dataset.table";
   * the configuration wraps the built one under "load" exactly when that is a non-empty
   * map (Python treats `{}` like `None`); the schema is passed when one is given; the
   * project, `if_exists` and location are passed through; the API method is "load_csv".
   */
  function ToGbqCallFor(args: LoadArgs): (call: ToGbqCall)
    ensures call.destinationTable == args.datasetId + "." + args.tableId
    ensures call.projectId == args.projectId && call.ifExists == args.ifExists
            && call.location == args.location && call.apiMethod == "load_csv"
    ensures call.tableSchema.Some? <==> Present(args.schema)
    ensures call.tableSchema.Some? ==> call.tableSchema.value == args.schema.value
    ensures call.configuration.Some? <==> ConfigOf(args).Some? && ConfigOf(args).value != map[]
    ensures call.configuration.Some? ==>
      call.configuration.value == map[LoadKey := Dict(ConfigOf(args).value)]
  {
    var jobConfig := ConfigOf(args);
    ToGbqCall(
      args.datasetId + "." + args.tableId,
      args.projectId,
      args.ifExists,
      args.location,
      if Present(args.schema) then args.schema else None,
      "load_csv",
      if jobConfig.Some? && jobConfig.value != map[] then Some(map[LoadKey := Dict(jobConfig.value)]) else None)
  }

  /**
   * A configuration reaches `to_gbq` exactly when partitioning, clustering or a write
   * disposition is given, or the create disposition is neither the default nor empty.
   */
  lemma {:induction false} ConfigurationPassedIff(args: LoadArgs)
    ensures ToGbqCallFor(args).configuration.Some? <==>
      || Present(args.partitionField) || Present(args.clusteringFields) || Present(args.writeDisposition)
      || (args.createDisposition != "" && args.createDisposition != CreateIfNeeded)
  {
    var cfg := ConfigOf(args);
    if cfg.Some? {
      var m := cfg.value;
      if Present(args.partitionField) { assert TimePartitioningKey in m; }
      if Present(args.clusteringFields) { assert ClusteringKey in m; }
      if Present(args.writeDisposition) { assert WriteDispositionKey in m; }
      if args.createDisposition != "" { assert CreateDispositionKey in m; }
      if m != map[] {
        var k :| k in m;
        assert k in ConfigKeys();
      }
    }
  }

  /**
   * When the dataset name holds no '.', the destination "dataset.table" names one
   * dataset and table: two calls with the same destination have the same ones.
   */
  lemma {:induction false} DestinationDeterminesTable(d1: string, t1: string, d2: string, t2: string)
    requires '.' !in d1 && '.' !in d2
    requires d1 + "." + t1 == d2 + "." + t2
    ensures d1 == d2 && t1 == t2
  {
    var s := d1 + "." + t1;
    assert forall i :: 0 <= i < |d1| ==> s[i] == d1[i] && s[i] != '.';
    assert forall i :: 0 <= i < |d2| ==> s[i] == d2[i] && s[i] != '.';
    assert s[|d1|] == '.' && s[|d2|] == '.';
    assert d1 == s[..|d1|] == d2;
    assert t1 == s[|d1| + 1..] == t2;
  }

  /**
   * Once any other option is given, the default create disposition is written out too:
   * the configuration then holds "createDisposition": "CREATE_IF_NEEDED".
   */
  lemma {:induction false} DefaultCreateDispositionKept(partitionField: Option<string>,
                                                        clusteringFields: Option<seq<string>>,
                                                        writeDisposition: Option<string>)
    requires Present(partitionField) || Present(clusteringFields) || Present(writeDisposition)
    ensures var cfg := LoadJobConfig(partitionField, clusteringFields, CreateIfNeeded, writeDisposition);
      cfg.Some? && CreateDispositionKey in cfg.value && cfg.value[CreateDispositionKey] == Str("CREATE_IF_NEEDED")
  {
  }

  /** The documented example: every option used, with the default create disposition. */
  lemma {:induction false} DocumentedExample()
    ensures LoadJobConfig(Some("event_time"), Some(["user_id"]), CreateIfNeeded, Some("WRITE_APPEND"))
      == Some(map[
        TimePartitioningKey := DayPartitioning("event_time"),
        ClusteringKey := ClusteringOn(["user_id"]),
        CreateDispositionKey := Str("CREATE_IF_NEEDED"),
        WriteDispositionKey := Str("WRITE_APPEND")])
  {
  }

  /** "CREATE_NEVER" alone is a configuration holding only the create disposition. */
  lemma {:induction false} CreateNeverAlone()
    ensures LoadJobConfig(None, None, "CREATE_NEVER", None) == Some(map[CreateDispositionKey := Str("CREATE_NEVER")])
  {
  }

  /**
   * An empty create disposition alone is an empty configuration, not `None`; and
   * `to_gbq` then receives no configuration, as for `None`.
   */
  lemma {:induction false} EmptyCreateDispositionAlone(projectId: string, datasetId: string, tableId: string)
    ensures LoadJobConfig(None, None, "", None) == Some(map[])
    ensures ToGbqCallFor(DefaultLoadArgs(projectId, datasetId, tableId).(createDisposition := "")).configuration == None
  {
  }

  /** With every option at its default, `to_gbq` gets neither schema nor configuration. */
  lemma {:induction false} DefaultsPassNothing(projectId: string, datasetId: string, tableId: string)
    ensures var call := ToGbqCallFor(DefaultLoadArgs(projectId, datasetId, tableId));
      && call.tableSchema == None && call.configuration == None
      && call.ifExists == "append" && call.location == "US"
  {
  }
}
