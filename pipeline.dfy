/** The convert / concatenate pipeline shared by the two get_raw_data_df
    variants: per-shard caching of the converted CSV files, the ascending
    walk over the 100 shards, and the combined-file cache. The Conversion,
    Shards and RawData functions say what a run does to a Disk; the
    lemmas below read the run's effect off the disk it started from. */
module Pipeline {
  import opened Errors
  import opened Tables
  import opened Paths
  import opened Os
  import opened ShardLoop

  const ShardCount: nat := 100
  const GeomColumn: string := "geom"

  /** How a table is rebuilt from a stored file, for each kind of read the
      scripts make. Nothing is assumed about these decoders. */
  datatype Codec = Codec(
    readCsvText: Table -> Table,     // pandas.read_csv(p, low_memory=False, dtype=str)
    readCsvWhole: Table -> Table,    // pandas.read_csv(p, low_memory=False)
    readCsvChunked: Table -> Table,  // pandas.read_csv(p)
    readParquet: Table -> Table)     // pyarrow.parquet.read_table(p).to_pandas()

  /** Shard i is served from its converted CSV file. */
  predicate CacheHit(d: Disk, i: nat, refresh: bool) {
    PathExists(d, ConvertedPath(i)) && !refresh
  }

  /** The calls converting shard i makes, read off the disk it starts from. */
  function ConversionEvents(d: Disk, codec: Codec, i: nat, refresh: bool): seq<Event> {
    if CacheHit(d, i, refresh) then [CsvRead(ConvertedPath(i))]
    else if ParquetPath(i) in d.files then
      [ParquetRead(ParquetPath(i)), CsvWritten(ConvertedPath(i), codec.readParquet(d.files[ParquetPath(i)]))]
    else [ParquetRead(ParquetPath(i))]
  }

  /** One turn of the shard loop: load the converted CSV when it exists and
      refresh is off, otherwise read the parquet source and write the CSV
      (into ConvertedPlaces, the converted file's directory: ShardParents). */
  function Conversion(d: Disk, codec: Codec, i: nat, refresh: bool): (a: After<Table>)
    ensures a.disk.dirs == d.dirs
    ensures a.disk.trace == d.trace + ConversionEvents(d, codec, i, refresh)
    ensures a.result.Ok? && !CacheHit(d, i, refresh) ==>
              ParquetPath(i) in d.files &&
              a.result.value == codec.readParquet(d.files[ParquetPath(i)]) &&
              a.disk.files == d.files[ConvertedPath(i) := codec.readParquet(d.files[ParquetPath(i)])]
    ensures a.result.Err? || CacheHit(d, i, refresh) ==> a.disk.files == d.files
    ensures CacheHit(d, i, refresh) ==>
              a.result == (if ConvertedPath(i) in d.files then Ok(codec.readCsvWhole(d.files[ConvertedPath(i)]))
                           else Err(NoSuchFile(ConvertedPath(i))))
  {
    var csv := ConvertedPath(i);
    if CacheHit(d, i, refresh) then ReadStep(d, csv, codec.readCsvWhole, CsvRead(csv))
    else
      var pq := ReadStep(d, ParquetPath(i), codec.readParquet, ParquetRead(ParquetPath(i)));
      if pq.result.Err? then pq
      else
        var w := WriteInto(pq.disk, ConvertedPlaces, csv, pq.result.value, CsvWritten(csv, pq.result.value));
        if w.result.Err? then After(w.disk, Err(w.result.error)) else After(w.disk, pq.result)
  }

  /** What the loop does with a shard table before appending it. */
  function Prepare(t: Table, dropGeom: bool): Result<Table> {
    if dropGeom then DropColumn(t, GeomColumn) else Ok(t)
  }

  /** The table shard i contributes when it is converted on disk d. */
  function ShardTable(d: Disk, codec: Codec, i: nat, refresh: bool, dropGeom: bool): Result<Table> {
    var c := Conversion(d, codec, i, refresh).result;
    if c.Err? then c else Prepare(c.value, dropGeom)
  }

  /** One turn of the shard loop: converting shard i, then preparing its table. */
  function ShardStep(d: Disk, codec: Codec, i: nat, refresh: bool, dropGeom: bool): After<Table> {
    After(Conversion(d, codec, i, refresh).disk, ShardTable(d, codec, i, refresh, dropGeom))
  }

  function Turns(codec: Codec, refresh: bool, dropGeom: bool): Step {
    (e: Disk, i: nat) => ShardStep(e, codec, i, refresh, dropGeom)
  }

  function Trails(codec: Codec, refresh: bool): Trail {
    (e: Disk, i: nat) => ConversionEvents(e, codec, i, refresh)
  }

  /** The first n turns of the shard loop, in ascending index order; the
      first failure ends the loop. */
  function Shards(d: Disk, codec: Codec, refresh: bool, dropGeom: bool, n: nat): After<seq<Table>> {
    Fold(d, Turns(codec, refresh, dropGeom), n)
  }

  /** get_raw_data_df: the stored combined file when it exists and refresh
      is off; otherwise all shards, concatenated and written back. */
  function RawData(d: Disk, codec: Codec, rawPath: Path, refresh: bool, dropGeom: bool,
                   readRaw: Table -> Table): After<Table>
  {
    if PathExists(d, rawPath) && !refresh then ReadStep(d, rawPath, readRaw, CsvRead(rawPath))
    else
      var s := Shards(d, codec, refresh, dropGeom, ShardCount);
      if s.result.Err? then After(s.disk, Err(s.result.error))
      else if !SameColumns(s.result.value) then After(s.disk, Err(SchemaMismatch))
      else
        var t := Concat(s.result.value);
        var w := WriteStep(s.disk, rawPath, t, CsvWritten(rawPath, t));
        if w.result.Err? then After(w.disk, Err(w.result.error)) else After(w.disk, Ok(t))
  }

  /** The shard loop body (lines 21-29 of foursquare.py, 21-30 of fsq_download.py). */
  method ConvertShard(fs: FileSystem, codec: Codec, i: nat, refresh: bool) returns (r: Result<Table>)
    modifies fs
    ensures After(fs.State(), r) == Conversion(old(fs.State()), codec, i, refresh)
  {
    var csvPath := ConvertedPath(i);
    var present := fs.Exists(csvPath);
    if present && !refresh {
      r := fs.ReadCsv(csvPath, codec.readCsvWhole);
    } else {
      var table := fs.ReadParquet(ParquetPath(i), codec.readParquet);
      if table.Err? {
        return table;
      }
      ShardParents(i);
      var written := fs.WriteCsv(csvPath, table.value);
      if written.Err? {
        return Err(written.error);
      }
      r := table;
    }
  }

  /** get_raw_data_df, shared by both scripts: dropGeom says whether each
      shard loses its geom column before it is appended, readRaw how the
      combined file is read back. */
  method GetRawData(fs: FileSystem, codec: Codec, rawPath: Path, refresh: bool, dropGeom: bool,
                    readRaw: Table -> Table) returns (r: Result<Table>)
    modifies fs
    ensures After(fs.State(), r) == RawData(old(fs.State()), codec, rawPath, refresh, dropGeom, readRaw)
  {
    var present := fs.Exists(rawPath);
    if present && !refresh {
      r := fs.ReadCsv(rawPath, readRaw);
      return;
    }
    ghost var d0 := fs.State();
    var list: seq<Table> := [];
    for i := 0 to ShardCount
      invariant After(fs.State(), Ok(list)) == Shards(d0, codec, refresh, dropGeom, i)
    {
      ghost var before := fs.State();
      var table := ConvertShard(fs, codec, i, refresh);
      assert Shards(d0, codec, refresh, dropGeom, i + 1) == ShardStepAfter(before, list, codec, i, refresh, dropGeom);
      if table.Err? {
        ShardsStopAtFailure(d0, codec, refresh, dropGeom, i + 1, ShardCount);
        return Err(table.error);
      }
      var prepared := Prepare(table.value, dropGeom);
      if prepared.Err? {
        ShardsStopAtFailure(d0, codec, refresh, dropGeom, i + 1, ShardCount);
        return Err(prepared.error);
      }
      list := list + [prepared.value];
    }
    if !SameColumns(list) {
      return Err(SchemaMismatch);
    }
    var combined := Concat(list);
    var written := fs.WriteCsv(rawPath, combined);
    if written.Err? {
      return Err(written.error);
    }
    r := Ok(combined);
  }

  /** The loop state after shard i's turn, from the list `list` and the disk d before it. */
  function ShardStepAfter(d: Disk, list: seq<Table>, codec: Codec, i: nat, refresh: bool, dropGeom: bool): After<seq<Table>> {
    var s := ShardStep(d, codec, i, refresh, dropGeom);
    if s.result.Err? then After(s.disk, Err(s.result.error)) else After(s.disk, Ok(list + [s.result.value]))
  }

  // ---------------------------------------------------------------------
  // Properties of one conversion

  /** With the converted file present and refresh off, the shard is read
      from that file: no parquet read and no write. */
  lemma CachedShardIsRead(d: Disk, codec: Codec, i: nat)
    requires ConvertedPath(i) in d.files
    ensures Conversion(d, codec, i, false) ==
            After(Log(d, CsvRead(ConvertedPath(i))), Ok(codec.readCsvWhole(d.files[ConvertedPath(i)])))
  {
  }

  /** A shard whose source file is missing fails with NoSuchFile and leaves
      no converted file behind. */
  lemma MissingSourceFails(d: Disk, codec: Codec, i: nat, refresh: bool)
    requires !CacheHit(d, i, refresh) && ParquetPath(i) !in d.files
    ensures Conversion(d, codec, i, refresh).result == Err(NoSuchFile(ParquetPath(i)))
    ensures Conversion(d, codec, i, refresh).disk.files == d.files
    ensures ConversionEvents(d, codec, i, refresh) == [ParquetRead(ParquetPath(i))]
  {
  }

  /** Once a conversion has succeeded, converting the same shard again with
      refresh off reads the converted file and nothing else. */
  lemma ConversionIsCached(d: Disk, codec: Codec, i: nat, refresh: bool)
    requires Conversion(d, codec, i, refresh).result.Ok?
    ensures var d1 := Conversion(d, codec, i, refresh).disk;
            CacheHit(d1, i, false) &&
            ConversionEvents(d1, codec, i, false) == [CsvRead(ConvertedPath(i))] &&
            Conversion(d1, codec, i, false).disk.files == d1.files
  {
  }

  /** A conversion looks only at its own two files and at the directories. */
  lemma ConversionIsLocal(d: Disk, e: Disk, codec: Codec, i: nat, refresh: bool)
    requires d.dirs == e.dirs
    requires Agree(d.files, e.files, ConvertedPath(i)) && Agree(d.files, e.files, ParquetPath(i))
    ensures CacheHit(d, i, refresh) == CacheHit(e, i, refresh)
    ensures Conversion(d, codec, i, refresh).result == Conversion(e, codec, i, refresh).result
    ensures ConversionEvents(d, codec, i, refresh) == ConversionEvents(e, codec, i, refresh)
  {
  }

  // ---------------------------------------------------------------------
  // Properties of the shard loop

  /** A turn creates no directory, writes nothing but its converted file,
      and depends on the directories, its converted file and its source
      file only; converted files are distinct and none is a source file. */
  lemma TurnsAreLocal(codec: Codec, refresh: bool, dropGeom: bool)
    ensures Confined(Turns(codec, refresh, dropGeom), ConvertedPath)
    ensures Local(Turns(codec, refresh, dropGeom), ParquetPath, ConvertedPath)
    ensures LocalTrail(Trails(codec, refresh), ParquetPath, ConvertedPath)
    ensures Logs(Turns(codec, refresh, dropGeom), Trails(codec, refresh))
    ensures Separate(ParquetPath, ConvertedPath)
  {
    var step := Turns(codec, refresh, dropGeom);
    forall e: Disk, i: nat
      ensures step(e, i).disk.dirs == e.dirs
      ensures forall p :: p != ConvertedPath(i) ==> Agree(step(e, i).disk.files, e.files, p)
      ensures step(e, i).disk.trace == e.trace + Trails(codec, refresh)(e, i)
    {
      assert step(e, i) == ShardStep(e, codec, i, refresh, dropGeom);
    }
    forall e1: Disk, e2: Disk, i: nat | Alike(e1, e2, ParquetPath, ConvertedPath, i)
      ensures step(e1, i).result == step(e2, i).result
      ensures Agree(step(e1, i).disk.files, step(e2, i).disk.files, ConvertedPath(i))
      ensures Trails(codec, refresh)(e1, i) == Trails(codec, refresh)(e2, i)
    {
      ConversionIsLocal(e1, e2, codec, i, refresh);
      assert step(e1, i) == ShardStep(e1, codec, i, refresh, dropGeom);
      assert step(e2, i) == ShardStep(e2, codec, i, refresh, dropGeom);
    }
    forall i: nat, j: nat | ConvertedPath(i) == ConvertedPath(j)
      ensures i == j
    {
      ConvertedPathInjective(i, j);
    }
    forall i: nat, j: nat
      ensures ParquetPath(i) != ConvertedPath(j)
    {
      ConvertedIsNotParquet(j, i);
    }
  }

  /** After the first failure the loop has stopped: later turns change nothing. */
  lemma ShardsStopAtFailure(d: Disk, codec: Codec, refresh: bool, dropGeom: bool, k: nat, n: nat)
    requires k <= n && Shards(d, codec, refresh, dropGeom, k).result.Err?
    ensures Shards(d, codec, refresh, dropGeom, n) == Shards(d, codec, refresh, dropGeom, k)
  {
    FoldStop(d, Turns(codec, refresh, dropGeom), k, n);
  }

  /** The calls of shards 0 .. n-1, each read off the starting disk, in index order. */
  function ShardsEvents(d: Disk, codec: Codec, refresh: bool, n: nat): seq<Event> {
    Calls(d, Trails(codec, refresh), n)
  }

  /** The rows contributed by shards 0 .. n-1. */
  function ShardRows(d: Disk, codec: Codec, refresh: bool, dropGeom: bool, n: nat): nat {
    if n == 0 then 0
    else
      var t := ShardTable(d, codec, n - 1, refresh, dropGeom);
      ShardRows(d, codec, refresh, dropGeom, n - 1) + (if t.Ok? then |t.value.rows| else 0)
  }

  /** What the converted file of shard i holds after its turn succeeded. */
  predicate Converted(d: Disk, codec: Codec, i: nat, refresh: bool, f: map<Path, Table>) {
    if CacheHit(d, i, refresh) then Agree(f, d.files, ConvertedPath(i))
    else
      ParquetPath(i) in d.files && ConvertedPath(i) in f &&
      f[ConvertedPath(i)] == codec.readParquet(d.files[ParquetPath(i)])
  }

  /** The shard loop creates no directory and changes no file but the
      converted files of the shards it ran. */
  lemma ShardsFrame(d: Disk, codec: Codec, refresh: bool, dropGeom: bool, n: nat)
    ensures Shards(d, codec, refresh, dropGeom, n).disk.dirs == d.dirs
    ensures forall p :: (forall j: nat :: j < n ==> p != ConvertedPath(j)) ==>
              Agree(Shards(d, codec, refresh, dropGeom, n).disk.files, d.files, p)
  {
    TurnsAreLocal(codec, refresh, dropGeom);
    FoldFrame(d, Turns(codec, refresh, dropGeom), ConvertedPath, n);
    forall p | (forall j: nat :: j < n ==> p != ConvertedPath(j))
      ensures Agree(Shards(d, codec, refresh, dropGeom, n).disk.files, d.files, p)
    {
      assert Untouched(ConvertedPath, n, p);
    }
  }

  /** The loop succeeds exactly when every shard does, and then it holds
      the shard tables in index order, each as converted from the starting disk. */
  lemma ShardsTables(d: Disk, codec: Codec, refresh: bool, dropGeom: bool, n: nat)
    ensures var a := Shards(d, codec, refresh, dropGeom, n);
            && (a.result.Ok? <==> forall i :: 0 <= i < n ==> ShardTable(d, codec, i, refresh, dropGeom).Ok?)
            && (a.result.Ok? ==> |a.result.value| == n)
            && (a.result.Ok? ==> forall i :: 0 <= i < n ==> a.result.value[i] == ShardTable(d, codec, i, refresh, dropGeom).value)
  {
    var step := Turns(codec, refresh, dropGeom);
    TurnsAreLocal(codec, refresh, dropGeom);
    FoldTables(d, step, ParquetPath, ConvertedPath, n);
    forall i: nat
      ensures step(d, i).result == ShardTable(d, codec, i, refresh, dropGeom)
    {
      assert step(d, i) == ShardStep(d, codec, i, refresh, dropGeom);
    }
  }

  /** A successful loop made the shards' calls in index order. */
  lemma ShardsTrace(d: Disk, codec: Codec, refresh: bool, dropGeom: bool, n: nat)
    requires Shards(d, codec, refresh, dropGeom, n).result.Ok?
    ensures Shards(d, codec, refresh, dropGeom, n).disk.trace == d.trace + ShardsEvents(d, codec, refresh, n)
  {
    TurnsAreLocal(codec, refresh, dropGeom);
    FoldTrace(d, Turns(codec, refresh, dropGeom), Trails(codec, refresh), ParquetPath, ConvertedPath, n);
  }

  /** After a successful loop every converted file holds its shard. */
  lemma ShardsConverted(d: Disk, codec: Codec, refresh: bool, dropGeom: bool, n: nat)
    requires Shards(d, codec, refresh, dropGeom, n).result.Ok?
    ensures forall i :: 0 <= i < n ==> Converted(d, codec, i, refresh, Shards(d, codec, refresh, dropGeom, n).disk.files)
  {
    var step := Turns(codec, refresh, dropGeom);
    var f := Shards(d, codec, refresh, dropGeom, n).disk.files;
    TurnsAreLocal(codec, refresh, dropGeom);
    FoldTables(d, step, ParquetPath, ConvertedPath, n);
    FoldOutputs(d, step, ParquetPath, ConvertedPath, n);
    forall i | 0 <= i < n
      ensures Converted(d, codec, i, refresh, f)
    {
      assert step(d, i) == ShardStep(d, codec, i, refresh, dropGeom);
      assert step(d, i).result.Ok?;
      assert Agree(f, Conversion(d, codec, i, refresh).disk.files, ConvertedPath(i));
    }
  }

  /** Rows of the first i shards, counted by concatenation. */
  lemma {:induction false} TotalRowsOfShards(d: Disk, codec: Codec, refresh: bool, dropGeom: bool, ts: seq<Table>, n: nat)
    requires n <= |ts|
    requires forall i :: 0 <= i < |ts| ==> ShardTable(d, codec, i, refresh, dropGeom) == Ok(ts[i])
    ensures TotalRows(ts[..n]) == ShardRows(d, codec, refresh, dropGeom, n)
  {
    if n > 0 {
      assert ts[..n][..n - 1] == ts[..n - 1];
      TotalRowsOfShards(d, codec, refresh, dropGeom, ts, n - 1);
    }
  }

  // ---------------------------------------------------------------------
  // Properties of get_raw_data_df

  /** With the combined file present and refresh off, the stored file is
      read and nothing else happens: no shard is read, nothing is written. */
  lemma CombinedCacheHit(d: Disk, codec: Codec, rawPath: Path, refresh: bool, dropGeom: bool, readRaw: Table -> Table)
    requires PathExists(d, rawPath) && !refresh
    ensures var a := RawData(d, codec, rawPath, refresh, dropGeom, readRaw);
            && a.disk.files == d.files && a.disk.dirs == d.dirs
            && a.disk.trace == d.trace + [CsvRead(rawPath)]
            && a.result == (if rawPath in d.files then Ok(readRaw(d.files[rawPath])) else Err(NoSuchFile(rawPath)))
  {
  }

  /** A rebuild creates no directory. */
  lemma RebuildKeepsDirectories(d: Disk, codec: Codec, rawPath: Path, refresh: bool, dropGeom: bool, readRaw: Table -> Table)
    requires !(PathExists(d, rawPath) && !refresh)
    ensures RawData(d, codec, rawPath, refresh, dropGeom, readRaw).disk.dirs == d.dirs
  {
    ShardsFrame(d, codec, refresh, dropGeom, ShardCount);
  }

  /** A rebuild that succeeds converted every shard successfully, once
      each and in ascending order, and then wrote the combined table to
      rawPath. */
  lemma RebuildTrace(d: Disk, codec: Codec, rawPath: Path, refresh: bool, dropGeom: bool, readRaw: Table -> Table)
    requires !(PathExists(d, rawPath) && !refresh)
    requires RawData(d, codec, rawPath, refresh, dropGeom, readRaw).result.Ok?
    ensures forall i :: 0 <= i < ShardCount ==> ShardTable(d, codec, i, refresh, dropGeom).Ok?
    ensures var a := RawData(d, codec, rawPath, refresh, dropGeom, readRaw);
            a.disk.trace == d.trace + ShardsEvents(d, codec, refresh, ShardCount) + [CsvWritten(rawPath, a.result.value)]
  {
    ShardsTables(d, codec, refresh, dropGeom, ShardCount);
    ShardsTrace(d, codec, refresh, dropGeom, ShardCount);
  }

  /** A successful rebuild leaves the combined table at rawPath, with the
      columns of shard 0. */
  lemma RebuildStored(d: Disk, codec: Codec, rawPath: Path, refresh: bool, dropGeom: bool, readRaw: Table -> Table)
    requires !(PathExists(d, rawPath) && !refresh)
    requires RawData(d, codec, rawPath, refresh, dropGeom, readRaw).result.Ok?
    ensures var a := RawData(d, codec, rawPath, refresh, dropGeom, readRaw);
            && rawPath in a.disk.files && a.disk.files[rawPath] == a.result.value
            && ShardTable(d, codec, 0, refresh, dropGeom).Ok?
            && a.result.value.columns == ShardTable(d, codec, 0, refresh, dropGeom).value.columns
  {
    ShardsTables(d, codec, refresh, dropGeom, ShardCount);
  }

  /** Every shard contributes a table with the combined table's columns. */
  lemma RebuildShardColumns(d: Disk, codec: Codec, rawPath: Path, refresh: bool, dropGeom: bool, readRaw: Table -> Table,
                            i: nat)
    requires !(PathExists(d, rawPath) && !refresh)
    requires RawData(d, codec, rawPath, refresh, dropGeom, readRaw).result.Ok?
    requires i < ShardCount
    ensures ShardTable(d, codec, i, refresh, dropGeom).Ok?
    ensures ShardTable(d, codec, i, refresh, dropGeom).value.columns ==
            RawData(d, codec, rawPath, refresh, dropGeom, readRaw).result.value.columns
  {
    ShardsTables(d, codec, refresh, dropGeom, ShardCount);
    var ts := Shards(d, codec, refresh, dropGeom, ShardCount).result.value;
    assert SameColumns(ts);
    assert ts[i].columns == ts[0].columns;
  }

  /** The rows of a successful rebuild number the shards' rows together. */
  lemma RebuildRowCount(d: Disk, codec: Codec, rawPath: Path, refresh: bool, dropGeom: bool, readRaw: Table -> Table)
    requires !(PathExists(d, rawPath) && !refresh)
    requires RawData(d, codec, rawPath, refresh, dropGeom, readRaw).result.Ok?
    ensures |RawData(d, codec, rawPath, refresh, dropGeom, readRaw).result.value.rows| ==
            ShardRows(d, codec, refresh, dropGeom, ShardCount)
  {
    var ts := Shards(d, codec, refresh, dropGeom, ShardCount).result.value;
    ShardsTables(d, codec, refresh, dropGeom, ShardCount);
    ConcatRowCount(ts);
    TotalRowsOfShards(d, codec, refresh, dropGeom, ts, |ts|);
    assert ts[..|ts|] == ts;
  }

  /** In a successful rebuild, row k of shard i is row
      ShardRows(.., i) + k of the combined table: all rows of shard i come
      before those of shard i+1, each in its own order. */
  lemma RebuildRowOrder(d: Disk, codec: Codec, rawPath: Path, refresh: bool, dropGeom: bool, readRaw: Table -> Table,
                        i: nat, k: nat)
    requires !(PathExists(d, rawPath) && !refresh)
    requires RawData(d, codec, rawPath, refresh, dropGeom, readRaw).result.Ok?
    requires i < ShardCount
    requires ShardTable(d, codec, i, refresh, dropGeom).Ok? && k < |ShardTable(d, codec, i, refresh, dropGeom).value.rows|
    ensures var t := RawData(d, codec, rawPath, refresh, dropGeom, readRaw).result.value;
            && ShardRows(d, codec, refresh, dropGeom, i) + k < |t.rows|
            && t.rows[ShardRows(d, codec, refresh, dropGeom, i) + k] == ShardTable(d, codec, i, refresh, dropGeom).value.rows[k]
  {
    ShardsTables(d, codec, refresh, dropGeom, ShardCount);
    var ts := Shards(d, codec, refresh, dropGeom, ShardCount).result.value;
    ConcatRowOrder(ts, i, k);
    TotalRowsOfShards(d, codec, refresh, dropGeom, ts, i);
  }

  /** Where a shard's cell ends up in the table it contributes: under the
      same column, at position j, or, when geom is dropped, at the position
      left by the columns before j other than geom. */
  function CellColumn(columns: seq<string>, j: nat, dropGeom: bool): nat
    requires j <= |columns|
  {
    if dropGeom then Remaining(columns[..j], GeomColumn) else j
  }

  /** Preparing a shard loses no data but the dropped column: the cell of
      converted shard s at row k and column j is in the table the shard
      contributes, at row k, under the same column name. */
  lemma PreparedKeepsCells(d: Disk, codec: Codec, i: nat, refresh: bool, dropGeom: bool, s: Table, k: nat, j: nat)
    requires Conversion(d, codec, i, refresh).result == Ok(s) && WellFormed(s)
    requires ShardTable(d, codec, i, refresh, dropGeom).Ok?
    requires k < |s.rows| && j < |s.columns| && (dropGeom ==> s.columns[j] != GeomColumn)
    ensures var p := ShardTable(d, codec, i, refresh, dropGeom).value;
            var col := CellColumn(s.columns, j, dropGeom);
            && k < |p.rows| && col < |p.columns| && col < |p.rows[k]|
            && p.columns[col] == s.columns[j]
            && p.rows[k][col] == s.rows[k][j]
  {
    var p := ShardTable(d, codec, i, refresh, dropGeom).value;
    assert Prepare(s, dropGeom) == Ok(p);
    CellCarried(s, p, k, j, dropGeom);
  }

  lemma CellCarried(s: Table, p: Table, k: nat, j: nat, dropGeom: bool)
    requires WellFormed(s) && Prepare(s, dropGeom) == Ok(p)
    requires k < |s.rows| && j < |s.columns| && (dropGeom ==> s.columns[j] != GeomColumn)
    ensures var col := CellColumn(s.columns, j, dropGeom);
            && k < |p.rows| && col < |p.columns| && col < |p.rows[k]|
            && p.columns[col] == s.columns[j]
            && p.rows[k][col] == s.rows[k][j]
  {
    if dropGeom {
      DropColumnKeepsOrder(s, GeomColumn);
    } else {
      assert s.rows[k] in s.rows;
    }
  }

  /** Row k of converted shard s, as prepared, is in the combined table at
      its offset, and the prepared table has the combined columns. */
  lemma RebuildShardRow(d: Disk, codec: Codec, rawPath: Path, refresh: bool, dropGeom: bool, readRaw: Table -> Table,
                        i: nat, s: Table, k: nat)
    requires !(PathExists(d, rawPath) && !refresh) && i < ShardCount
    requires RawData(d, codec, rawPath, refresh, dropGeom, readRaw).result.Ok?
    requires Conversion(d, codec, i, refresh).result == Ok(s) && k < |s.rows|
    ensures ShardTable(d, codec, i, refresh, dropGeom).Ok?
    ensures ShardTable(d, codec, i, refresh, dropGeom) == Prepare(s, dropGeom)
    ensures k < |ShardTable(d, codec, i, refresh, dropGeom).value.rows|
    ensures var t := RawData(d, codec, rawPath, refresh, dropGeom, readRaw).result.value;
            var row := ShardRows(d, codec, refresh, dropGeom, i) + k;
            && row < |t.rows|
            && t.rows[row] == ShardTable(d, codec, i, refresh, dropGeom).value.rows[k]
            && t.columns == ShardTable(d, codec, i, refresh, dropGeom).value.columns
  {
    RebuildShardColumns(d, codec, rawPath, refresh, dropGeom, readRaw, i);
    RebuildRowOrder(d, codec, rawPath, refresh, dropGeom, readRaw, i, k);
  }

  /** With refresh on, a successful rebuild re-read every source file and
      rewrote every converted file (unless rawPath itself is one of them). */
  lemma RefreshRewritesEveryShard(d: Disk, codec: Codec, rawPath: Path, dropGeom: bool, readRaw: Table -> Table)
    requires RawData(d, codec, rawPath, true, dropGeom, readRaw).result.Ok?
    ensures var a := RawData(d, codec, rawPath, true, dropGeom, readRaw);
            forall i :: 0 <= i < ShardCount && rawPath != ConvertedPath(i) ==>
              && ParquetPath(i) in d.files
              && ConvertedPath(i) in a.disk.files
              && a.disk.files[ConvertedPath(i)] == codec.readParquet(d.files[ParquetPath(i)])
              && ConversionEvents(d, codec, i, true) ==
                 [ParquetRead(ParquetPath(i)), CsvWritten(ConvertedPath(i), codec.readParquet(d.files[ParquetPath(i)]))]
  {
    var a := RawData(d, codec, rawPath, true, dropGeom, readRaw);
    var s := Shards(d, codec, true, dropGeom, ShardCount);
    assert s.result.Ok? && SameColumns(s.result.value);
    assert a.disk.files == s.disk.files[rawPath := Concat(s.result.value)];
    ShardsConverted(d, codec, true, dropGeom, ShardCount);
    forall i | 0 <= i < ShardCount && rawPath != ConvertedPath(i)
      ensures ParquetPath(i) in d.files
      ensures ConvertedPath(i) in a.disk.files
      ensures a.disk.files[ConvertedPath(i)] == codec.readParquet(d.files[ParquetPath(i)])
      ensures ConversionEvents(d, codec, i, true) ==
              [ParquetRead(ParquetPath(i)), CsvWritten(ConvertedPath(i), codec.readParquet(d.files[ParquetPath(i)]))]
    {
      assert Converted(d, codec, i, true, s.disk.files);
    }
  }
}
