# hive_merge: the HiveQL script generator

`merge.py` compacts and recompresses a Hive table, or one partition of it.
It builds one HiveQL script that does four things in order:

1. sets the session options (dynamic partitions, small-file merging, and output compression when asked for);
2. creates `temp_merge_db.temp_<database>_<table>` as a clone of the table;
3. copies the data there with output compression off;
4. copies it back with compression on, then drops the temporary copy (or just its partition).

This project models the part of `main()` that builds the script, together with the helpers it calls:
`hive_options`, `hive_compress_codec`, `hive_enable_compression`, `hive_get_temp_db` and `hive_get_temp_table`.
Everything is stated over an already-parsed configuration.

Modules:

- `Wrappers` (Wrappers.dfy): `Option` and `Result`. `Option` stands for "key in config"; `Result` stands for the `usage(error)` exit path.
- `Strings` (Strings.dfy): the Python string operations the generator relies on.
  `Join` is `sep.join(xs)`, `Concat` is successive `+=`, `Lines` is `s.split("\n")`, `Occurs` is `p in s`,
  and `IsDigits`/`DigitsValue` are Python 2 `str.isdigit()` and `int()`.
  Lemmas here give the layout of joined and concatenated text.
- `HiveMerge` (HiveMerge.dfy): the generator.
  `Config` holds what `main()` collects: database, table, partition keys and values, and the `config`
  dictionary with its optional `compress_codec` and `merge_size` entries.
  `Error` has one constructor per `usage(...)` call of the core.
  The operations are `CompressCodec`, `EnableCompression`, `MergeSize`, `Options`, `TempDb`, `TempTable`,
  `PartitionPairs`, the loop `BuildPartitionPairs`, `PartitionClauses`, `Statements` and `Script`.
- `HiveMergeProperties` (HiveMergeProperties.dfy): lemmas about the script.
  They cover the codec table, the merge-size guard, the compression block, temp names, partition clauses,
  the error cases and the fixed statement order. They also replay concrete configurations
  (`sales.orders` with snappy, `logs.events` with two partition keys, a key without a value).

`Script(c)` is the script as the concatenation of nine statements (`Statements`), in the order `main()` appends them:

0. settings;
1. `CREATE DATABASE`;
2. `CREATE TABLE ... LIKE`;
3. compression off;
4. copy out;
5. compression on;
6. copy back;
7. `USE temp_merge_db`;
8. cleanup.

Two details of the code are easy to misread; the model follows the code:

- The merge size takes effect only when it is strictly greater than 16 MiB (`> 16*1024*1024`, merge.py:58), so 16777216 itself falls back to the default.
- An invalid codec stops generation at once (`usage` exits, merge.py:96). No partial script is produced, so the model returns an error.

## Model

| member | source | states |
|---|---|---|
| `HiveMerge.CompressCodec` | merge.py:81-96 | The chain of comparisons agrees with the codec table. lz4, gzip, bzip2, lzo and snappy map to their own classes. deflate and "" both map to DefaultCodec. Any other name is InvalidCompressionCodec. Every class returned is a non-empty dotted name with no newline. |
| `HiveMerge.EnableCompression` | merge.py:99-109 | Succeeds exactly for the names in the codec table. Otherwise the error is InvalidCompressionCodec. |
| `HiveMerge.MergeSize` | merge.py:58-61 | The emitted merge size is always a digit string whose value exceeds 16 MiB. It is either the default 256000000 or the configured string itself. |
| `HiveMerge.Options` | merge.py:47-78 | The settings fail exactly when compression is on and the codec name (absent counts as "") is not in the table. The error is then InvalidCompressionCodec. Their layout is stated by `MergeSizeSetting`: without compression, nothing follows the small-file block. `CompressionAppendsBlock` covers the case with compression. |
| `HiveMerge.PartitionPairs` | merge.py:212-217 | Succeeds exactly when there are at least as many values as keys. Then there is one pair per key, and pair i is `keys[i]='values[i]'`. Otherwise the error names `keys[len(values)]`, the first key without a value. |
| `HiveMerge.BuildPartitionPairs` | merge.py:212-217 | The indexed loop that appends to partition_pairs and stops at the first missing value returns exactly `PartitionPairs`. |
| `HiveMerge.PartitionClauses` | merge.py:204-220 | Partitioning is off (None) exactly when there are no keys. With keys it fails exactly when a value is missing, naming the first such key. |
| `HiveMerge.Script` | merge.py:196-257 | Generation fails exactly when one of these holds: the database or table is empty; compression is on with an unknown codec; a key lacks a value. The first of these in that order decides the error. |
| `Strings.JoinAt` | merge.py:211-220 | `', '.join` and `' AND '.join` lay the items out in order. Item i sits at its offset, one separator lies between consecutive items (n-1 of them), and the last item ends the text. |
| `HiveMerge.Message` | merge.py:16-20 | Every error text is non-empty, so `usage` always prints its `Error: ...` line before the help. |
| `HiveMerge.TempDb` | merge.py:112-114 | The temp database is a non-empty name without a dot. |
| `HiveMergeProperties.MessageInjective` | merge.py:16-20 | Distinct errors print distinct messages, so the missing key can be read back from its message. |
| `HiveMergeProperties.CompressionBlockLines` | merge.py:99-109 | The block is exactly four SET lines and a final newline. The lines are, in order: compression on, BLOCK type, output codec, map-output codec. The resolved class appears in the last two. |
| `HiveMergeProperties.CodecIgnoredWithoutCompression` | merge.py:70-76 | With compression off the codec is never resolved. Any codec name, even an invalid one, gives the same successful settings. |
| `HiveMergeProperties.CompressionAppendsBlock` | merge.py:70-78 | With compression on, the settings are the uncompressed settings followed by the compression block and a newline. |
| `HiveMergeProperties.MergeSizeVerbatim` | merge.py:58-61 | A configured merge size is emitted verbatim if and only if it is a non-empty digit string whose value is greater than 16 MiB. |
| `HiveMergeProperties.MergeSizeSetting` | merge.py:49-68 | The settings begin with the dynamic-partition block. `SET hive.merge.size.per.task=<v>;` comes right after it, and the small-file merge block (mapfiles, mapredfiles, avgsize) right after that. With compression off the settings end there. With compression on, the block follows (`CompressionAppendsBlock`). |
| `HiveMergeProperties.MergeSizeIdempotent` | merge.py:58-61 | Feeding the emitted merge size back in gives the same value. |
| `HiveMergeProperties.MergeSizeKept` | merge.py:58-59 | 268435456 is emitted as given. |
| `HiveMergeProperties.MergeSizeFallsBack` | merge.py:58-61 | 1000, "abc", "", 16777216 and an absent value all give 256000000. |
| `HiveMergeProperties.TempNames` | merge.py:112-123 | States `TempDb` and `TempTable`. The temp database is temp_merge_db. The temp table is `temp_<database>_<table>`. The full name is `temp_merge_db.temp_<database>_<table>`. |
| `HiveMergeProperties.QualifiedNames` | merge.py:225-226 | In `temp_merge_db.<temp table>` the first dot ends the database name and the temp table follows it. The same holds for `<database>.<table>` whenever the database name has no dot. |
| `HiveMergeProperties.TempTableInjective` | merge.py:117-123 | When neither database name contains "_", different (database, table) pairs get different temp tables. |
| `HiveMergeProperties.TempTableCollision` | merge.py:117-123 | Without that proviso, a_b.c and a.b_c share the temp table temp_a_b_c. |
| `HiveMergeProperties.PartitionClauseShape` | merge.py:209-220 | With keys and enough values: the key list is the keys joined by ", ". The WHERE predicate and the DROP PARTITION spec are the same index-wise pairs, joined by " AND " and by ", ". |
| `HiveMergeProperties.SurplusValuesIgnored` | merge.py:213-215 | Values beyond the last key do not change the clauses. |
| `HiveMergeProperties.PartitionConditionLayout` | merge.py:213-219 | In the WHERE predicate, pair i (key i with value i) sits at its offset and is followed by " AND " unless it is the last pair. |
| `HiveMergeProperties.MissingValueNamesFirstKey` | merge.py:213-217 | When the database and table are given and the settings succeed, too few values abort generation with "Missing value for partition key '<k>'". This covers compression off, and compression on with a valid codec. Here k is `keys[len(values)]`. |
| `HiveMergeProperties.ScriptLayout` | merge.py:199-257 | The script is its nine statements back to back. Statement k fills the text between offsets k and k+1; the first statement starts the script and the last ends it. |
| `HiveMergeProperties.ScriptOrder` | merge.py:227-257 | Each statement ends before any later one begins. In particular the copy out is complete before the copy back starts, and the cleanup comes last. |
| `HiveMerge.Statements` | merge.py:222-257 | There are nine statements, and the first is the settings. Compression is switched off before the copy out and on before the copy back. The copy back is the copy out with source (`<db>.<table>`) and target (`temp_merge_db.temp_<db>_<table>`) swapped, under the same partition clauses. The last statement cleans up the temp table. |
| `HiveMergeProperties.PartitionedCopy` | merge.py:232-237 | With a partition, `CopyStatement` is `INSERT OVERWRITE TABLE <target> PARTITION(<keys>) SELECT * FROM <source> WHERE <predicate>;` followed by a blank line. |
| `HiveMergeProperties.ScriptFrame` | merge.py:222-253 | Statements 0-3, 5 and 7 are fixed: the settings, `CREATE DATABASE IF NOT EXISTS temp_merge_db;`, `CREATE TABLE IF NOT EXISTS <temp_full> LIKE <db.table>;`, compression off, compression on, and `USE temp_merge_db;`. |
| `HiveMergeProperties.UnpartitionedStatements` | merge.py:230-257 | `CopyStatement` and `Cleanup` without partition: both INSERTs copy the whole table with no PARTITION or WHERE clause, and the cleanup is `DROP TABLE <temp_table>;`. |
| `HiveMergeProperties.PartitionedStatements` | merge.py:230-257 | `CopyStatement` and `Cleanup` with partition: both INSERTs carry the same `PARTITION(<key list>)` and `WHERE <predicate>`, and the cleanup is `ALTER TABLE <temp_table> DROP PARTITION(<pairs>);`. |
| `HiveMergeProperties.UnpartitionedCopiesHaveNoClauses` | merge.py:232-250 | Without keys, and with plain lower-case names, neither INSERT contains "PARTITION(" or "WHERE". |
| `HiveMergeProperties.SalesOrdersScript` | merge.py:196-257 | sales.orders with snappy and no partitions produces a script built from the unpartitioned statements. |
| `HiveMergeProperties.SalesOrdersNames` | merge.py:223-225 | The temp names for sales.orders are temp_sales_orders and temp_merge_db.temp_sales_orders. |
| `HiveMergeProperties.SalesOrdersStatements` | merge.py:227-257 | For sales.orders: the CREATE TABLE statement clones sales.orders into temp_merge_db.temp_sales_orders, both INSERTs copy the whole table, and the cleanup drops temp_sales_orders. |
| `HiveMergeProperties.SnappyCompressionLines` | merge.py:99-109 | For snappy, the block's lines are exactly the four SET lines and a final empty line, and both codec lines name org.apache.hadoop.io.compress.SnappyCodec. |
| `HiveMergeProperties.LogsEventsClauses` | merge.py:209-220 | For keys dt, hour and values 2024-01-01, 10 the clauses are `dt, hour`, `dt='2024-01-01' AND hour='10'` and `dt='2024-01-01', hour='10'`. |
| `HiveMergeProperties.LogsEventsPairs` | merge.py:213-215 | For that partition the pairs are `dt='2024-01-01'` and `hour='10'`. |
| `HiveMergeProperties.LogsEventsJoins` | merge.py:211-220 | Joining those keys and pairs gives the three clause texts. |
| `HiveMergeProperties.LogsEventsScript` | merge.py:196-257 | logs.events with that partition produces a script that uses those clauses. |
| `HiveMergeProperties.LogsEventsNames` | merge.py:223-225 | The temp names for logs.events are temp_logs_events and temp_merge_db.temp_logs_events. |
| `HiveMergeProperties.LogsEventsStatements` | merge.py:232-255 | The copy out carries `PARTITION(dt, hour)` and `WHERE dt='2024-01-01' AND hour='10'`. The cleanup is `ALTER TABLE temp_logs_events DROP PARTITION(dt='2024-01-01', hour='10');`. |
| `HiveMergeProperties.MissingValueScenario` | merge.py:213-217 | Key dt with no value gives the error "Missing value for partition key 'dt'". |

## Left out

- Command-line parsing with getopt (merge.py:143-195) is left out; the model starts from a built `Config`. The long-option list there lacks commas (merge.py:153-156), which fuses "table=", "pk=", "pv=" and "split-size=" into one entry. Also, no `--merge-size` long option is registered at all. That glue is not modelled.
- Printing is left out: the banner, the `usage` help text and exit status 255, the "Compression enabled"/"Compression codec=" progress lines, and the debug framing. An error is returned as an `Error` value instead (`Message` gives the text after "Error: ").
- Debug mode is left out. `debug_mode` only decides whether the finished script is printed or executed, and it never changes the script, so it is not part of `Config`.
- The temp file (`mktemp`, `os.remove`) and running `hive -f` (`run_command`) are left out: they are file-system and process I/O (merge.py:126-140, 263-274). So is whatever Hive does when it runs the script.
- Script: `main()` grows `hiveql` through successive `+=` steps. The model builds the same text as a concatenation of nine statements, so the order of the appends is kept but the step-by-step update of one variable is not. Only the partition loop is modelled as a method (`BuildPartitionPairs`).
- UnpartitionedCopiesHaveNoClauses: proved only for database and table names made of lower-case letters, digits and "_". A name may itself contain "WHERE" or "PARTITION(", and then the statement does too.
- Options: the fixed dynamic-partition and small-file blocks are stated as text (`MergeSizeSetting` places them), not split into lines as the compression block is.
- IsDigits follows Python 2's byte-string `isdigit()` (ASCII digits only). Python 3's wider set of Unicode digits is not modelled.
- The scenario lemmas state the statements that differ between configurations, not the whole script text.
- No separate lemma covers determinism: `Script` is a function, so equal configurations give equal scripts.
