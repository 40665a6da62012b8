/** The HiveQL generator of merge.py: from a configuration it builds one script
    that copies a table (or one partition of it) out to a temporary table with
    output compression off, writes it back with compression and small-file
    merging on, and drops the temporary copy. */
module HiveMerge {
  import opened Wrappers
  import opened Strings

  const MergeTempDatabase := "temp_merge_db"
  const MergeTempTablePrefix := "temp_"

  /** hive.merge.size.per.task is taken from the configuration only above 16 MiB. */
  const MergeSizeThreshold := 16 * 1024 * 1024
  const DefaultMergeSize := "256000000"

  const DefaultCodec := "org.apache.hadoop.io.compress.DefaultCodec"

  /** What main() collects from the command line: the database and table, the
      positional partition keys and values, and the `config` dictionary, whose
      optional keys become `Option`s ("compress" is only ever set to true). */
  datatype Config = Config(
    database: string,
    table: string,
    partitionKeys: seq<string>,
    partitionValues: seq<string>,
    compress: bool,
    compressCodec: Option<string>,
    mergeSize: Option<string>)

  /** The reasons for which the script calls usage(error) and exits with status 255. */
  datatype Error =
    | DatabaseAndTableRequired
    | InvalidCompressionCodec
    | MissingPartitionValue(key: string)

  /** The text usage() prints after "Error: ". It is never empty, so usage()
      always prints the error line before the help text. */
  function Message(e: Error): (m: string)
    ensures m != ""
  {
    match e
    case DatabaseAndTableRequired => "database and table are required."
    case InvalidCompressionCodec => "Invalid compression codec"
    case MissingPartitionValue(k) => "Missing value for partition key '" + k + "'"
  }

  // ------------------------------------------------------------ compression

  /** The codec names the generator accepts and the Hadoop class each stands for. */
  const CodecTable: map<string, string> := map[
    "lz4" := "org.apache.hadoop.io.compress.Lz4Codec",
    "gzip" := "org.apache.hadoop.io.compress.GzipCodec",
    "bzip2" := "org.apache.hadoop.io.compress.BZip2Codec",
    "lzo" := "com.hadoop.compression.lzo.LzopCodec",
    "snappy" := "org.apache.hadoop.io.compress.SnappyCodec",
    "deflate" := DefaultCodec,
    "" := DefaultCodec]

  /** hive_compress_codec: the chain of comparisons agrees with the table, and
      every class it yields is a dotted name on a single line. */
  function CompressCodec(codec: string): (r: Result<string, Error>)
    ensures r == if codec in CodecTable then Ok(CodecTable[codec]) else Err(InvalidCompressionCodec)
    ensures r.Ok? ==> |r.value| > 0 && '.' in r.value && '\n' !in r.value
  {
    if codec == "lz4" then Ok("org.apache.hadoop.io.compress.Lz4Codec")
    else if codec == "gzip" then Ok("org.apache.hadoop.io.compress.GzipCodec")
    else if codec == "bzip2" then Ok("org.apache.hadoop.io.compress.BZip2Codec")
    else if codec == "lzo" then Ok("com.hadoop.compression.lzo.LzopCodec")
    else if codec == "snappy" then Ok("org.apache.hadoop.io.compress.SnappyCodec")
    else if codec == "deflate" || codec == "" then Ok(DefaultCodec)
    else Err(InvalidCompressionCodec)
  }

  /** hive_enable_compression: four settings that turn on BLOCK compression of
      the final and the intermediate map output with the resolved codec. */
  function EnableCompression(codec: string): (r: Result<string, Error>)
    ensures r.Ok? <==> codec in CodecTable
    ensures r.Err? ==> r.error == InvalidCompressionCodec
  {
    match CompressCodec(codec)
    case Err(e) => Err(e)
    case Ok(codecClass) =>
      Ok("SET mapred.output.compress=true;\n"
         + "SET mapred.output.compression.type=BLOCK;\n"
         + ("SET mapred.output.compression.codec=" + codecClass + ";\n")
         + ("SET mapred.map.output.compression.codec=" + codecClass + ";\n"))
  }

  // ------------------------------------------------------------ settings

  /** The value written into `SET hive.merge.size.per.task=<v>;`: the configured
      one when there is a digit string above 16 MiB, the default otherwise.
      Either way the emitted value is a digit string above 16 MiB. */
  function MergeSize(mergeSize: Option<string>): (v: string)
    ensures IsDigits(v) && DigitsValue(v) > MergeSizeThreshold
    ensures v == DefaultMergeSize || mergeSize == Some(v)
  {
    DefaultMergeSizeValue();
    if mergeSize.Some? && IsDigits(mergeSize.value) && DigitsValue(mergeSize.value) > MergeSizeThreshold
    then mergeSize.value
    else DefaultMergeSize
  }

  lemma DefaultMergeSizeValue()
    ensures IsDigits(DefaultMergeSize) && DigitsValue(DefaultMergeSize) == 256000000
  {
    assert DefaultMergeSize[..8] == "25600000";
    assert DefaultMergeSize[..8][..7] == "2560000";
    assert DefaultMergeSize[..8][..7][..6] == "256000";
    assert DefaultMergeSize[..8][..7][..6][..5] == "25600";
    assert DefaultMergeSize[..8][..7][..6][..5][..4] == "2560";
    assert DefaultMergeSize[..8][..7][..6][..5][..4][..3] == "256";
    assert DefaultMergeSize[..8][..7][..6][..5][..4][..3][..2] == "25";
    assert DefaultMergeSize[..8][..7][..6][..5][..4][..3][..2][..1] == "2";
    assert DigitsValue("2") == 2;
    assert DigitsValue("25") == 25;
    assert DigitsValue("256") == 256;
    assert DigitsValue("2560") == 2560;
    assert DigitsValue("25600") == 25600;
    assert DigitsValue("256000") == 256000;
    assert DigitsValue("2560000") == 2560000;
    assert DigitsValue("25600000") == 25600000;
  }

  const DynamicPartitionSettings :=
    "\n"
    + "SET hive.exec.dynamic.partition=true;\n"
    + "SET hive.exec.dynamic.partition.mode=nonstrict;\n"
    + "SET hive.exec.max.dynamic.partitions.pernode=10000;\n"
    + "SET hive.exec.max.dynamic.partitions=100000;\n"
    + "SET hive.exec.max.created.files=1000000;\n"
    + "\n"

  const SmallFileMergeSettings :=
    "\n"
    + "SET hive.merge.mapfiles=true;\n"
    + "SET hive.merge.mapredfiles=true;\n"
    + "SET hive.merge.smallfiles.avgsize=16000000;\n"
    + "\n"

  /** The codec name `config["compress_codec"]` or "" when it is absent. */
  function CodecName(compressCodec: Option<string>): string
  {
    if compressCodec.Some? then compressCodec.value else ""
  }

  /** hive_options: the session settings. The codec is looked up only when
      compression is asked for, so only then can it be an error. */
  function Options(c: Config): (r: Result<string, Error>)
    ensures r.Err? <==> c.compress && CodecName(c.compressCodec) !in CodecTable
    ensures r.Err? ==> r.error == InvalidCompressionCodec
  {
    var ret := DynamicPartitionSettings
      + "SET hive.merge.size.per.task=" + MergeSize(c.mergeSize) + ";"
      + SmallFileMergeSettings;
    if c.compress then
      match EnableCompression(CodecName(c.compressCodec))
      case Err(e) => Err(e)
      case Ok(block) => Ok(ret + block + "\n")
    else Ok(ret)
  }

  // ------------------------------------------------------------ temp objects

  /** hive_get_temp_db: a plain database name, without a dot. */
  function TempDb(): (db: string)
    ensures db != "" && '.' !in db
  {
    MergeTempDatabase
  }

  /** hive_get_temp_table */
  function TempTable(database: string, table: string): string
  {
    MergeTempTablePrefix + database + "_" + table
  }

  function TempTableFull(database: string, table: string): string
  {
    TempDb() + "." + TempTable(database, table)
  }

  function OriginalTableFull(database: string, table: string): string
  {
    database + "." + table
  }

  // ------------------------------------------------------------ partitions

  function Pair(key: string, value: string): string
  {
    key + "='" + value + "'"
  }

  /** The `key='value'` pairs of the partition, one per key, each key paired
      with the value at its own index; surplus values play no part. The first
      key without a value, `keys[|values|]`, is the error. */
  function PartitionPairs(keys: seq<string>, values: seq<string>): (r: Result<seq<string>, Error>)
    ensures r.Ok? <==> |keys| <= |values|
    ensures r.Ok? ==> |r.value| == |keys|
    ensures r.Ok? ==> forall i | 0 <= i < |keys| :: r.value[i] == Pair(keys[i], values[i])
    ensures r.Err? ==> |values| < |keys| && r.error == MissingPartitionValue(keys[|values|])
  {
    if |keys| == 0 then Ok([])
    else if |values| == 0 then Err(MissingPartitionValue(keys[0]))
    else
      match PartitionPairs(keys[1..], values[1..])
      case Err(e) => Err(e)
      case Ok(rest) => Ok([Pair(keys[0], values[0])] + rest)
  }

  /** The for-loop of main() that fills partition_pairs, stopping at the first
      key whose index has no value. */
  method BuildPartitionPairs(keys: seq<string>, values: seq<string>) returns (r: Result<seq<string>, Error>)
    ensures r == PartitionPairs(keys, values)
  {
    var pairs: seq<string> := [];
    var i := 0;
    while i < |keys|
      invariant 0 <= i <= |keys| && i <= |values|
      invariant |pairs| == i
      invariant forall j | 0 <= j < i :: pairs[j] == Pair(keys[j], values[j])
    {
      if i >= |values| {
        return Err(MissingPartitionValue(keys[i]));
      }
      pairs := pairs + [Pair(keys[i], values[i])];
      i := i + 1;
    }
    assert pairs == PartitionPairs(keys, values).value;
    return Ok(pairs);
  }

  /** The three clauses built from the partition: the key list for
      `PARTITION(...)`, the `AND`-joined predicate for `WHERE`, and the
      comma-joined spec for `DROP PARTITION(...)`. */
  datatype PartitionClause = PartitionClause(keyList: string, condition: string, dropSpec: string)

  /** None when no partition key is given: partitioning is then off. */
  function PartitionClauses(keys: seq<string>, values: seq<string>): (r: Result<Option<PartitionClause>, Error>)
    ensures r.Ok? <==> |keys| <= |values|
    ensures r.Ok? ==> (r.value.None? <==> |keys| == 0)
    ensures r.Err? ==> |values| < |keys| && r.error == MissingPartitionValue(keys[|values|])
  {
    if |keys| == 0 then Ok(None)
    else
      match PartitionPairs(keys, values)
      case Err(e) => Err(e)
      case Ok(pairs) => Ok(Some(PartitionClause(Join(keys, ", "), Join(pairs, " AND "), Join(pairs, ", "))))
  }

  // ------------------------------------------------------------ the script

  /** `INSERT OVERWRITE TABLE target [PARTITION(keys)] SELECT * FROM source [WHERE condition];` */
  function CopyStatement(target: string, source: string, partition: Option<PartitionClause>): string
  {
    ("INSERT OVERWRITE TABLE " + target)
    + (if partition.Some? then " PARTITION(" + partition.value.keyList + ")" else "")
    + (" SELECT * FROM " + source)
    + (if partition.Some? then " WHERE " + partition.value.condition + ";\n\n" else ";\n\n")
  }

  /** Drops the copied partition from the temp table, or the whole temp table. */
  function Cleanup(tempTable: string, partition: Option<PartitionClause>): string
  {
    if partition.Some? then "ALTER TABLE " + tempTable + " DROP PARTITION(" + partition.value.dropSpec + ");\n"
    else "DROP TABLE " + tempTable + ";\n"
  }

  /** The script's nine parts in the order main() appends them. The copy back
      is the copy out with source and target swapped, under the same partition
      clauses; compression is off for the first and on for the second. */
  function Statements(settings: string, database: string, table: string, partition: Option<PartitionClause>):
    (sts: seq<string>)
    ensures |sts| == 9 && sts[0] == settings
    ensures sts[3] == "SET hive.exec.compress.output=false;\n" && sts[5] == "SET hive.exec.compress.output=true;\n"
    ensures sts[4] == CopyStatement(TempTableFull(database, table), OriginalTableFull(database, table), partition)
    ensures sts[6] == CopyStatement(OriginalTableFull(database, table), TempTableFull(database, table), partition)
    ensures sts[8] == Cleanup(TempTable(database, table), partition)
  {
    var tempFull := TempTableFull(database, table);
    var original := OriginalTableFull(database, table);
    [ settings,
      "CREATE DATABASE IF NOT EXISTS " + TempDb() + ";\n",
      "CREATE TABLE IF NOT EXISTS " + tempFull + " LIKE " + original + ";\n\n",
      "SET hive.exec.compress.output=false;\n",
      CopyStatement(tempFull, original, partition),
      "SET hive.exec.compress.output=true;\n",
      CopyStatement(original, tempFull, partition),
      "USE " + TempDb() + ";\n",
      Cleanup(TempTable(database, table), partition) ]
  }

  /** The script for a configuration, or the first error main() runs into:
      an empty database or table, then an unknown codec (only when
      compressing), then a partition key without a value. */
  function Script(c: Config): (r: Result<string, Error>)
    ensures r.Err? <==>
      c.database == "" || c.table == ""
      || (c.compress && CodecName(c.compressCodec) !in CodecTable)
      || |c.partitionValues| < |c.partitionKeys|
    ensures (c.database == "" || c.table == "") ==> r == Err(DatabaseAndTableRequired)
    ensures c.database != "" && c.table != "" && c.compress && CodecName(c.compressCodec) !in CodecTable
      ==> r == Err(InvalidCompressionCodec)
    ensures c.database != "" && c.table != "" && !(c.compress && CodecName(c.compressCodec) !in CodecTable)
      && |c.partitionValues| < |c.partitionKeys|
      ==> r == Err(MissingPartitionValue(c.partitionKeys[|c.partitionValues|]))
  {
    if c.database == "" || c.table == "" then Err(DatabaseAndTableRequired)
    else
      match Options(c)
      case Err(e) => Err(e)
      case Ok(settings) =>
        match PartitionClauses(c.partitionKeys, c.partitionValues)
        case Err(e) => Err(e)
        case Ok(partition) => Ok(Concat(Statements(settings, c.database, c.table, partition)))
  }
}
