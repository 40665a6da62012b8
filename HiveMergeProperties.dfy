/** What the generated script is: its statements, their order, and the
    settings, codec, naming and partition rules they follow. */
module HiveMergeProperties {
  import opened Wrappers
  import opened Strings
  import opened HiveMerge

  // ------------------------------------------------------------ errors

  /** Each error prints a message of its own, and the missing key can be read back from it. */
  lemma MessageInjective(e1: Error, e2: Error)
    requires Message(e1) == Message(e2)
    ensures e1 == e2
  {
    var m := Message(e1);
    if e1.MissingPartitionValue? && e2.MissingPartitionValue? {
      var n := |"Missing value for partition key '"|;
      assert e1.key == m[n .. |m| - 1] == e2.key;
    } else {
      assert m[0] == Message(e2)[0];
    }
  }

  // ------------------------------------------------------------ compression

  /** The compression block is exactly four SET lines (and the newline that
      ends the last): compression on, BLOCK type, output codec, map-output
      codec, the resolved codec class in the last two. */
  lemma CompressionBlockLines(codec: string)
    requires codec in CodecTable
    ensures EnableCompression(codec).Ok?
    ensures
      var cls := CodecTable[codec];
      Lines(EnableCompression(codec).value) == [
        "SET mapred.output.compress=true;",
        "SET mapred.output.compression.type=BLOCK;",
        "SET mapred.output.compression.codec=" + cls + ";",
        "SET mapred.map.output.compression.codec=" + cls + ";",
        ""]
  {
    var cls := CodecTable[codec];
    assert CompressCodec(codec) == Ok(cls);
    var l0 := "SET mapred.output.compress=true;";
    var l1 := "SET mapred.output.compression.type=BLOCK;";
    var l2 := "SET mapred.output.compression.codec=" + cls + ";";
    var l3 := "SET mapred.map.output.compression.codec=" + cls + ";";
    CompressionLinePieces(cls);
    assert EnableCompression(codec).value == (l0 + "\n") + (l1 + "\n") + (l2 + "\n") + (l3 + "\n");
    LinesRegroup(l0, l1, l2, l3, "\n");
    LinesAfterLine(l3, "");
    LinesAfterLine(l2, l3 + "\n" + "");
    LinesAfterLine(l1, l2 + "\n" + (l3 + "\n" + ""));
    LinesAfterLine(l0, l1 + "\n" + (l2 + "\n" + (l3 + "\n" + "")));
  }

  /** Each setting of the compression block is one line ended by a newline. */
  lemma CompressionLinePieces(cls: string)
    requires '\n' !in cls
    ensures "SET mapred.output.compress=true;\n" == "SET mapred.output.compress=true;" + "\n"
    ensures "SET mapred.output.compression.type=BLOCK;\n" == "SET mapred.output.compression.type=BLOCK;" + "\n"
    ensures "SET mapred.output.compression.codec=" + cls + ";\n" == "SET mapred.output.compression.codec=" + cls + ";" + "\n"
    ensures "SET mapred.map.output.compression.codec=" + cls + ";\n" == "SET mapred.map.output.compression.codec=" + cls + ";" + "\n"
    ensures '\n' !in "SET mapred.output.compress=true;"
    ensures '\n' !in "SET mapred.output.compression.type=BLOCK;"
    ensures '\n' !in "SET mapred.output.compression.codec=" + cls + ";"
    ensures '\n' !in "SET mapred.map.output.compression.codec=" + cls + ";"
  {
  }

  /** With compression off the codec is never looked up: any codec name, valid
      or not, gives the same settings, and they never fail. */
  lemma CodecIgnoredWithoutCompression(c: Config, codec: Option<string>)
    requires !c.compress
    ensures Options(c).Ok?
    ensures Options(c) == Options(c.(compressCodec := codec))
  {
  }

  /** With compression on, the settings are those without it followed by the
      compression block for the configured codec (or "" when none is given). */
  lemma CompressionAppendsBlock(c: Config)
    requires c.compress && CodecName(c.compressCodec) in CodecTable
    ensures Options(c).Ok? && EnableCompression(CodecName(c.compressCodec)).Ok?
    ensures Options(c).value
      == Options(c.(compress := false)).value + EnableCompression(CodecName(c.compressCodec)).value + "\n"
  {
  }

  // ------------------------------------------------------------ merge size

  /** The configured merge size is written out verbatim exactly when it is a
      digit string whose value exceeds 16 MiB. */
  lemma MergeSizeVerbatim(s: string)
    ensures MergeSize(Some(s)) == s <==> IsDigits(s) && DigitsValue(s) > MergeSizeThreshold
  {
    DefaultMergeSizeValue();
  }

  /** The settings begin with the dynamic-partition settings, then the merge
      size line, then the small-file merge settings; without compression
      nothing follows them. */
  lemma MergeSizeSetting(c: Config)
    requires Options(c).Ok?
    ensures
      var line := "SET hive.merge.size.per.task=" + MergeSize(c.mergeSize) + ";";
      var o := |DynamicPartitionSettings|;
      var ret := Options(c).value;
      o + |line| + |SmallFileMergeSettings| <= |ret|
      && ret[..o] == DynamicPartitionSettings
      && ret[o .. o + |line|] == line
      && ret[o + |line| .. o + |line| + |SmallFileMergeSettings|] == SmallFileMergeSettings
      && (!c.compress ==> o + |line| + |SmallFileMergeSettings| == |ret|)
  {
    var line := "SET hive.merge.size.per.task=" + MergeSize(c.mergeSize) + ";";
    var rest := if c.compress then EnableCompression(CodecName(c.compressCodec)).value + "\n" else "";
    assert DynamicPartitionSettings + "SET hive.merge.size.per.task=" + MergeSize(c.mergeSize) + ";"
      == DynamicPartitionSettings + line;
    assert Options(c).value == DynamicPartitionSettings + line + SmallFileMergeSettings + rest;
    ThreeParts(DynamicPartitionSettings, line, SmallFileMergeSettings, rest);
  }

  /** Feeding the emitted value back in changes nothing. */
  lemma MergeSizeIdempotent(mergeSize: Option<string>)
    ensures MergeSize(Some(MergeSize(mergeSize))) == MergeSize(mergeSize)
  {
    var v := MergeSize(mergeSize);
    MergeSizeVerbatim(v);
  }

  /** A configured 268435456 (256 MiB) is kept. */
  lemma MergeSizeKept()
    ensures MergeSize(Some("268435456")) == "268435456"
  {
    DigitsValue268435456();
    MergeSizeVerbatim("268435456");
  }

  /** 1000 (too small), "abc" (not digits), "" (empty), 16777216 (not strictly
      above 16 MiB) and an absent value all give the default 256000000. */
  lemma MergeSizeFallsBack()
    ensures MergeSize(Some("1000")) == DefaultMergeSize
    ensures MergeSize(Some("abc")) == DefaultMergeSize
    ensures MergeSize(Some("")) == DefaultMergeSize
    ensures MergeSize(Some("16777216")) == DefaultMergeSize
    ensures MergeSize(None) == DefaultMergeSize
  {
    assert "abc"[0] == 'a';
    DigitsValue1000();
    DigitsValue16777216();
  }

  lemma DigitsValue268435456()
    ensures IsDigits("268435456") && DigitsValue("268435456") == 268435456
  {
    assert DigitsValue("2") == 2;
    assert "26"[..1] == "2";
    assert DigitsValue("26") == 26;
    assert "268"[..2] == "26";
    assert DigitsValue("268") == 268;
    assert "2684"[..3] == "268";
    assert DigitsValue("2684") == 2684;
    assert "26843"[..4] == "2684";
    assert DigitsValue("26843") == 26843;
    assert "268435"[..5] == "26843";
    assert DigitsValue("268435") == 268435;
    assert "2684354"[..6] == "268435";
    assert DigitsValue("2684354") == 2684354;
    assert "26843545"[..7] == "2684354";
    assert DigitsValue("26843545") == 26843545;
    assert "268435456"[..8] == "26843545";
    assert DigitsValue("268435456") == 268435456;
  }

  lemma DigitsValue1000()
    ensures IsDigits("1000") && DigitsValue("1000") == 1000
  {
    assert DigitsValue("1") == 1;
    assert "10"[..1] == "1";
    assert DigitsValue("10") == 10;
    assert "100"[..2] == "10";
    assert DigitsValue("100") == 100;
    assert "1000"[..3] == "100";
    assert DigitsValue("1000") == 1000;
  }

  lemma DigitsValue16777216()
    ensures IsDigits("16777216") && DigitsValue("16777216") == 16777216
  {
    assert DigitsValue("1") == 1;
    assert "16"[..1] == "1";
    assert DigitsValue("16") == 16;
    assert "167"[..2] == "16";
    assert DigitsValue("167") == 167;
    assert "1677"[..3] == "167";
    assert DigitsValue("1677") == 1677;
    assert "16777"[..4] == "1677";
    assert DigitsValue("16777") == 16777;
    assert "167772"[..5] == "16777";
    assert DigitsValue("167772") == 167772;
    assert "1677721"[..6] == "167772";
    assert DigitsValue("1677721") == 1677721;
    assert "16777216"[..7] == "1677721";
    assert DigitsValue("16777216") == 16777216;
  }

  // ------------------------------------------------------------ temp names

  /** The temp objects are temp_merge_db and temp_<database>_<table> inside it. */
  lemma TempNames(database: string, table: string)
    ensures TempDb() == "temp_merge_db"
    ensures TempTable(database, table) == "temp_" + database + "_" + table
    ensures TempTableFull(database, table) == "temp_merge_db.temp_" + database + "_" + table
  {
  }

  /** How Hive reads the two qualified names: in `temp_merge_db.<temp table>`
      the first dot ends the database name, and so it does in
      `<database>.<table>` whenever the database name has no dot. */
  lemma QualifiedNames(database: string, table: string)
    ensures
      var n := TempTableFull(database, table);
      var d := |TempDb()|;
      d < |n| && n[..d] == TempDb() && n[d] == '.' && n[d + 1 ..] == TempTable(database, table)
      && forall i | 0 <= i < d :: n[i] != '.'
    ensures
      var n := OriginalTableFull(database, table);
      var d := |database|;
      d < |n| && n[..d] == database && n[d] == '.' && n[d + 1 ..] == table
      && ('.' !in database ==> forall i | 0 <= i < d :: n[i] != '.')
  {
    var n := TempTableFull(database, table);
    var d := |TempDb()|;
    assert n[..d] == TempDb();
    assert forall i | 0 <= i < d :: n[i] == TempDb()[i];
    var m := OriginalTableFull(database, table);
    assert forall i | 0 <= i < |database| :: m[i] == database[i];
  }

  /** Two tables get different temp tables as long as neither database name
      contains the "_" separator. */
  lemma TempTableInjective(db1: string, t1: string, db2: string, t2: string)
    requires '_' !in db1 && '_' !in db2
    requires TempTable(db1, t1) == TempTable(db2, t2)
    ensures db1 == db2 && t1 == t2
  {
    var s := TempTable(db1, t1);
    var p := |MergeTempTablePrefix|;
    assert s == MergeTempTablePrefix + db1 + "_" + t1;
    assert s == MergeTempTablePrefix + db2 + "_" + t2;
    assert s[p + |db1|] == '_' && s[p + |db2|] == '_';
    assert |db1| == |db2|;
    assert db1 == s[p .. p + |db1|] == db2;
    assert t1 == s[p + |db1| + 1 ..] == t2;
  }

  /** Without that proviso two tables can share a temp table. */
  lemma TempTableCollision()
    ensures TempTable("a_b", "c") == TempTable("a", "b_c")
  {
  }

  // ------------------------------------------------------------ partitions

  /** With keys and enough values: the key list joins the keys with ", ", and
      the WHERE predicate and the DROP PARTITION spec join the same pairs
      `keys[i]='values[i]'` with " AND " and with ", ". */
  lemma PartitionClauseShape(keys: seq<string>, values: seq<string>)
    requires 0 < |keys| <= |values|
    ensures
      var pairs := seq(|keys|, i requires 0 <= i < |keys| => keys[i] + "='" + values[i] + "'");
      PartitionClauses(keys, values)
        == Ok(Some(PartitionClause(Join(keys, ", "), Join(pairs, " AND "), Join(pairs, ", "))))
  {
    var pairs := seq(|keys|, i requires 0 <= i < |keys| => keys[i] + "='" + values[i] + "'");
    assert PartitionPairs(keys, values).value == pairs;
  }

  /** Values beyond the last key play no part. */
  lemma SurplusValuesIgnored(keys: seq<string>, values: seq<string>)
    requires |keys| <= |values|
    ensures PartitionClauses(keys, values) == PartitionClauses(keys, values[..|keys|])
  {
    assert PartitionPairs(keys, values).value == PartitionPairs(keys, values[..|keys|]).value;
  }

  /** The WHERE predicate for n pairs: pair i at its offset, " AND " between
      consecutive pairs (so n - 1 of them), and nothing after the last pair. */
  lemma PartitionConditionLayout(keys: seq<string>, values: seq<string>, i: nat)
    requires i < |keys| <= |values|
    ensures PartitionClauses(keys, values).Ok? && PartitionClauses(keys, values).value.Some?
    ensures
      var cond := PartitionClauses(keys, values).value.value.condition;
      var pairs := PartitionPairs(keys, values).value;
      var o := JoinOffset(pairs, " AND ", i);
      var e := o + |Pair(keys[i], values[i])|;
      e <= |cond| && cond[o .. e] == Pair(keys[i], values[i])
      && (i + 1 < |keys| ==> e + 5 <= |cond| && cond[e .. e + 5] == " AND ")
      && (i + 1 == |keys| ==> e == |cond|)
  {
    PartitionCondition(keys, values);
    var pairs := PartitionPairs(keys, values).value;
    JoinAt(pairs, " AND ", i);
    if i + 1 < |keys| {
      JoinSepAfter(pairs, " AND ", i);
      assert |" AND "| == 5;
    }
  }

  /** The WHERE predicate is the " AND "-join of the pairs, pair i pairing key i with value i. */
  lemma PartitionCondition(keys: seq<string>, values: seq<string>)
    requires 0 < |keys| <= |values|
    ensures PartitionClauses(keys, values).Ok? && PartitionClauses(keys, values).value.Some?
    ensures
      var pairs := PartitionPairs(keys, values).value;
      PartitionClauses(keys, values).value.value.condition == Join(pairs, " AND ")
      && |pairs| == |keys|
      && forall j | 0 <= j < |keys| :: pairs[j] == Pair(keys[j], values[j])
  {
  }

  /** A key without a value aborts generation, naming the first such key. */
  lemma MissingValueNamesFirstKey(c: Config)
    requires c.database != "" && c.table != "" && !(c.compress && CodecName(c.compressCodec) !in CodecTable)
    requires |c.partitionValues| < |c.partitionKeys|
    ensures Script(c) == Err(MissingPartitionValue(c.partitionKeys[|c.partitionValues|]))
    ensures Message(Script(c).error)
      == "Missing value for partition key '" + c.partitionKeys[|c.partitionValues|] + "'"
  {
  }

  // ------------------------------------------------------------ the script

  /** The statements of the script of `c`, when it has one. */
  function ScriptStatements(c: Config): (sts: seq<string>)
    requires Script(c).Ok?
    ensures |sts| == 9
  {
    Statements(Options(c).value, c.database, c.table, PartitionClauses(c.partitionKeys, c.partitionValues).value)
  }

  /** The script is its nine statements back to back, in the fixed order:
      statement k occupies the text between offsets k and k + 1, the first
      starts the script and the last ends it. */
  lemma ScriptLayout(c: Config, k: nat)
    requires Script(c).Ok? && k < 9
    ensures |ScriptStatements(c)| == 9
    ensures ConcatOffset(ScriptStatements(c), 0) == 0
    ensures ConcatOffset(ScriptStatements(c), 9) == |Script(c).value|
    ensures ConcatOffset(ScriptStatements(c), k) + |ScriptStatements(c)[k]| == ConcatOffset(ScriptStatements(c), k + 1)
    ensures ConcatOffset(ScriptStatements(c), k + 1) <= |Script(c).value|
    ensures Script(c).value[ConcatOffset(ScriptStatements(c), k) .. ConcatOffset(ScriptStatements(c), k + 1)]
      == ScriptStatements(c)[k]
  {
    var sts := ScriptStatements(c);
    ConcatAt(sts, k);
    ConcatWhole(sts);
  }

  /** Statement k comes before statement l, so in particular the copy out
      (statement 4) is complete before the copy back (statement 6) begins. */
  lemma ScriptOrder(c: Config, k: nat, l: nat)
    requires Script(c).Ok? && k < l < 9
    ensures ConcatOffset(ScriptStatements(c), k + 1) <= ConcatOffset(ScriptStatements(c), l)
  {
    var sts := ScriptStatements(c);
    assert |sts| == 9;
    ConcatOffsetMonotone(sts, k + 1, l);
  }

  /** The statements around the two copies, whatever the partitioning. */
  lemma ScriptFrame(c: Config)
    requires Script(c).Ok?
    ensures
      var sts := ScriptStatements(c);
      var temp := TempTableFull(c.database, c.table);
      var original := c.database + "." + c.table;
      sts[0] == Options(c).value
      && sts[1] == "CREATE DATABASE IF NOT EXISTS " + "temp_merge_db" + ";\n"
      && sts[2] == "CREATE TABLE IF NOT EXISTS " + temp + " LIKE " + original + ";\n\n"
      && sts[3] == "SET hive.exec.compress.output=false;\n"
      && sts[5] == "SET hive.exec.compress.output=true;\n"
      && sts[7] == "USE " + "temp_merge_db" + ";\n"
  {
    var p := PartitionClauses(c.partitionKeys, c.partitionValues).value;
    assert ScriptStatements(c) == Statements(Options(c).value, c.database, c.table, p);
    assert TempDb() == "temp_merge_db";
    assert OriginalTableFull(c.database, c.table) == c.database + "." + c.table;
  }

  /** Without partition keys both copies move the whole table and the temp
      table is dropped. */
  lemma UnpartitionedStatements(c: Config)
    requires Script(c).Ok? && |c.partitionKeys| == 0
    ensures
      var sts := ScriptStatements(c);
      var temp := TempTableFull(c.database, c.table);
      var original := c.database + "." + c.table;
      sts[4] == "INSERT OVERWRITE TABLE " + temp + " SELECT * FROM " + original + ";\n\n"
      && sts[6] == "INSERT OVERWRITE TABLE " + original + " SELECT * FROM " + temp + ";\n\n"
      && sts[8] == "DROP TABLE " + TempTable(c.database, c.table) + ";\n"
  {
  }

  /** With partition keys both copies carry the same PARTITION(...) and WHERE
      clauses, and only the partition is dropped from the temp table. */
  lemma PartitionedStatements(c: Config)
    requires Script(c).Ok? && |c.partitionKeys| > 0
    ensures
      var sts := ScriptStatements(c);
      var temp := TempTableFull(c.database, c.table);
      var original := c.database + "." + c.table;
      var pairs := PartitionPairs(c.partitionKeys, c.partitionValues).value;
      var keyList := Join(c.partitionKeys, ", ");
      var cond := Join(pairs, " AND ");
      sts[4] == "INSERT OVERWRITE TABLE " + temp + " PARTITION(" + keyList + ") SELECT * FROM "
                + original + " WHERE " + cond + ";\n\n"
      && sts[6] == "INSERT OVERWRITE TABLE " + original + " PARTITION(" + keyList + ") SELECT * FROM "
                + temp + " WHERE " + cond + ";\n\n"
      && sts[8] == "ALTER TABLE " + TempTable(c.database, c.table) + " DROP PARTITION(" + Join(pairs, ", ") + ");\n"
  {
    var pairs := PartitionPairs(c.partitionKeys, c.partitionValues).value;
    var p := PartitionClause(Join(c.partitionKeys, ", "), Join(pairs, " AND "), Join(pairs, ", "));
    assert PartitionClauses(c.partitionKeys, c.partitionValues) == Ok(Some(p));
    var sts := Statements(Options(c).value, c.database, c.table, Some(p));
    assert ScriptStatements(c) == sts;
    PartitionedCopy(TempTableFull(c.database, c.table), c.database + "." + c.table, p);
    PartitionedCopy(c.database + "." + c.table, TempTableFull(c.database, c.table), p);
  }

  lemma PartitionedCopy(target: string, source: string, p: PartitionClause)
    ensures CopyStatement(target, source, Some(p))
      == "INSERT OVERWRITE TABLE " + target + " PARTITION(" + p.keyList + ") SELECT * FROM "
         + source + " WHERE " + p.condition + ";\n\n"
  {
  }

  /** A Hive identifier as usually written: lower-case letters, digits and "_". */
  predicate IsPlainName(s: string)
  {
    forall i | 0 <= i < |s| :: 'a' <= s[i] <= 'z' || '0' <= s[i] <= '9' || s[i] == '_'
  }

  /** For plain database and table names, neither copy of an unpartitioned
      script contains "PARTITION(" or "WHERE". */
  lemma UnpartitionedCopiesHaveNoClauses(c: Config)
    requires Script(c).Ok? && |c.partitionKeys| == 0
    requires IsPlainName(c.database) && IsPlainName(c.table)
    ensures !Occurs("PARTITION(", ScriptStatements(c)[4]) && !Occurs("WHERE", ScriptStatements(c)[4])
    ensures !Occurs("PARTITION(", ScriptStatements(c)[6]) && !Occurs("WHERE", ScriptStatements(c)[6])
  {
    var sts := ScriptStatements(c);
    var temp := TempTableFull(c.database, c.table);
    var original := c.database + "." + c.table;
    assert sts[4] == CopyStatement(temp, original, None) && sts[6] == CopyStatement(original, temp, None);
    PlainNameLacks(c.database, '(');
    PlainNameLacks(c.database, 'H');
    PlainNameLacks(c.table, '(');
    PlainNameLacks(c.table, 'H');
    UnpartitionedCopyLacks(temp, original, '(');
    UnpartitionedCopyLacks(original, temp, '(');
    UnpartitionedCopyLacks(temp, original, 'H');
    UnpartitionedCopyLacks(original, temp, 'H');
    OccursChar("PARTITION(", sts[4], 9);
    OccursChar("WHERE", sts[4], 1);
    OccursChar("PARTITION(", sts[6], 9);
    OccursChar("WHERE", sts[6], 1);
  }

  lemma PlainNameLacks(s: string, ch: char)
    requires IsPlainName(s) && (ch == '(' || ch == 'H')
    ensures ch !in s && ch !in "temp_merge_db." + "temp_" + s && ch !in s + "."
  {
  }

  /** A character absent from both table names is absent from the copy between them. */
  lemma UnpartitionedCopyLacks(target: string, source: string, ch: char)
    requires ch == '(' || ch == 'H'
    requires ch !in target && ch !in source
    ensures ch !in CopyStatement(target, source, None)
  {
  }

  // ------------------------------------------------------------ scenarios

  /** sales.orders, no partitions, snappy compression: the script exists and
      is made of the statements for sales.orders without partition clauses. */
  lemma SalesOrdersScript(c: Config)
    requires c == Config("sales", "orders", [], [], true, Some("snappy"), None)
    ensures Script(c).Ok?
    ensures ScriptStatements(c) == Statements(Options(c).value, "sales", "orders", None)
  {
  }

  /** For sales.orders the temp table temp_merge_db.temp_sales_orders is a
      clone of sales.orders, both copies move the whole table, and the
      cleanup drops all of the temp table. */
  lemma SalesOrdersStatements(settings: string)
    ensures
      var sts := Statements(settings, "sales", "orders", None);
      var temp := "temp_merge_db.temp_sales_orders";
      sts[2] == "CREATE TABLE IF NOT EXISTS " + temp + " LIKE " + "sales.orders" + ";\n\n"
      && sts[4] == "INSERT OVERWRITE TABLE " + temp + " SELECT * FROM " + "sales.orders" + ";\n\n"
      && sts[6] == "INSERT OVERWRITE TABLE " + "sales.orders" + " SELECT * FROM " + temp + ";\n\n"
      && sts[8] == "DROP TABLE " + "temp_sales_orders" + ";\n"
  {
    SalesOrdersNames();
  }

  lemma SalesOrdersNames()
    ensures TempTable("sales", "orders") == "temp_sales_orders"
    ensures TempTableFull("sales", "orders") == "temp_merge_db.temp_sales_orders"
  {
  }

  /** With snappy both codec lines of the compression block name the Snappy codec. */
  lemma SnappyCompressionLines(codec: string)
    requires codec == "snappy"
    ensures EnableCompression(codec).Ok?
    ensures Lines(EnableCompression(codec).value) == [
      "SET mapred.output.compress=true;",
      "SET mapred.output.compression.type=BLOCK;",
      "SET mapred.output.compression.codec=" + "org.apache.hadoop.io.compress.SnappyCodec" + ";",
      "SET mapred.map.output.compression.codec=" + "org.apache.hadoop.io.compress.SnappyCodec" + ";",
      ""]
  {
    CompressionBlockLines(codec);
  }

  const LogsEventsPartition := PartitionClause("dt, hour", "dt='2024-01-01' AND hour='10'", "dt='2024-01-01', hour='10'")

  /** logs.events, partition dt='2024-01-01', hour='10': the three clauses. */
  lemma LogsEventsClauses()
    ensures PartitionClauses(["dt", "hour"], ["2024-01-01", "10"]) == Ok(Some(LogsEventsPartition))
  {
    LogsEventsPairs();
    LogsEventsJoins();
  }

  lemma LogsEventsPairs()
    ensures PartitionPairs(["dt", "hour"], ["2024-01-01", "10"]) == Ok(["dt='2024-01-01'", "hour='10'"])
  {
    var pairs := ["dt='2024-01-01'", "hour='10'"];
    assert Pair("dt", "2024-01-01") == pairs[0];
    assert Pair("hour", "10") == pairs[1];
    assert PartitionPairs(["dt", "hour"], ["2024-01-01", "10"]).value == pairs;
  }

  lemma LogsEventsJoins()
    ensures Join(["dt", "hour"], ", ") == "dt, hour"
    ensures Join(["dt='2024-01-01'", "hour='10'"], " AND ") == "dt='2024-01-01' AND hour='10'"
    ensures Join(["dt='2024-01-01'", "hour='10'"], ", ") == "dt='2024-01-01', hour='10'"
  {
    var pairs := ["dt='2024-01-01'", "hour='10'"];
    assert ["dt", "hour"][1..] == ["hour"] && pairs[1..] == ["hour='10'"];
  }

  /** logs.events with that partition: the script exists and uses those clauses. */
  lemma LogsEventsScript(c: Config)
    requires c == Config("logs", "events", ["dt", "hour"], ["2024-01-01", "10"], false, None, None)
    ensures Script(c).Ok?
    ensures ScriptStatements(c) == Statements(Options(c).value, "logs", "events", Some(LogsEventsPartition))
  {
    LogsEventsClauses();
  }

  /** Both copies are restricted to the partition, and only the partition is
      dropped from the temp table. */
  lemma LogsEventsStatements(settings: string)
    ensures
      var sts := Statements(settings, "logs", "events", Some(LogsEventsPartition));
      sts[4] == "INSERT OVERWRITE TABLE " + "temp_merge_db.temp_logs_events" + " PARTITION(" + "dt, hour" + ")"
                + " SELECT * FROM " + "logs.events" + " WHERE " + "dt='2024-01-01' AND hour='10'" + ";\n\n"
      && sts[8] == "ALTER TABLE " + "temp_logs_events" + " DROP PARTITION(" + "dt='2024-01-01', hour='10'" + ");\n"
  {
    LogsEventsNames();
  }

  lemma LogsEventsNames()
    ensures TempTable("logs", "events") == "temp_logs_events"
    ensures TempTableFull("logs", "events") == "temp_merge_db.temp_logs_events"
  {
  }

  /** One partition key and no value: generation stops, naming the key. */
  lemma MissingValueScenario(c: Config)
    requires c == Config("logs", "events", ["dt"], [], false, None, None)
    ensures Script(c) == Err(MissingPartitionValue("dt"))
    ensures Message(Script(c).error) == "Missing value for partition key 'dt'"
  {
    MissingValueNamesFirstKey(c);
  }
}
