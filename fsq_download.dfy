/** code/datacollection/fsq_download.py, the February 2025 release script:
    the download guarded by the places directory, get_raw_data_df keeping
    every column, and the main block's Parquet copy of the combined table. */
module FsqDownload {
  import opened Errors
  import opened Tables
  import opened Paths
  import opened Os
  import opened ShardLoop
  import opened Pipeline
  import opened Directories

  /** The default of get_raw_data_df and the path the main block uses. */
  const RawDataPath: Path := "data/raw_data.csv"

  /** download_foursquare skips the download when this path exists. */
  const PlacesDir: Path := "data/downloaded/places"

  const PlacesCommand: string :=
    "aws s3 cp --no-sign s3://fsq-os-places-us-east-1/release/dt=2025-02-06/places/parquet data/downloaded/places/ --recursive"
  const CategoriesCommand: string :=
    "aws s3 cp --no-sign s3://fsq-os-places-us-east-1/release/dt=2025-02-06/categories/parquet data/downloaded/categories/ --recursive"

  const Commands: seq<Event> := [CommandRun(PlacesCommand), CommandRun(CategoriesCommand)]

  // ---------------------------------------------------------------------
  // download_foursquare and initialize, as written
  // ---------------------------------------------------------------------

  function Download(d: Disk): Disk {
    if PathExists(d, PlacesDir) then d
    else SystemStep(SystemStep(d, PlacesCommand), CategoriesCommand)
  }

  method DownloadFoursquare(fs: FileSystem)
    modifies fs
    ensures fs.State() == Download(old(fs.State()))
  {
    var present := fs.Exists(PlacesDir);
    if !present {
      fs.System(PlacesCommand);
      fs.System(CategoriesCommand);
    }
  }

  /** The download touches no file or directory of the model; it runs the
      two copy commands, places first, exactly when the places directory is
      missing. */
  lemma DownloadRunsCommands(d: Disk)
    ensures Download(d).files == d.files && Download(d).dirs == d.dirs
    ensures PathExists(d, PlacesDir) <==> Download(d).trace == d.trace
    ensures !PathExists(d, PlacesDir) ==> Download(d).trace == d.trace + Commands
  {
    if !PathExists(d, PlacesDir) {
      assert |Download(d).trace| == |d.trace| + 2;
    }
  }

  /** initialize: the result of make_directories is ignored. */
  function Init(d: Disk, mayCreate: Path -> bool): Disk {
    Download(MakeAll(d, mayCreate, DataDirs).0)
  }

  method Initialize(fs: FileSystem, mayCreate: Path -> bool)
    modifies fs
    ensures fs.State() == Init(old(fs.State()), mayCreate)
  {
    var _ := MakeDirectories(fs, mayCreate);
    DownloadFoursquare(fs);
  }

  /** The places directory is the third one make_directories creates, so
      once the directories are in place the download never runs, whether
      or not any shard is there. */
  lemma DirectoriesSuppressDownload(d: Disk, mayCreate: Path -> bool)
    requires MakeAll(d, mayCreate, DataDirs).1
    ensures Init(d, mayCreate) == MakeAll(d, mayCreate, DataDirs).0
  {
    MakeAllCreates(d, mayCreate, DataDirs);
    assert DataDirs[2] == PlacesDir;
  }

  // ---------------------------------------------------------------------
  // download_foursquare, as evidently intended
  // ---------------------------------------------------------------------

  /** The download guarded by the first shard file instead, as in the July
      2025 script. */
  function FetchMissing(d: Disk): Disk {
    if PathExists(d, ParquetPath(0)) then d
    else SystemStep(SystemStep(d, PlacesCommand), CategoriesCommand)
  }

  method DownloadMissing(fs: FileSystem)
    modifies fs
    ensures fs.State() == FetchMissing(old(fs.State()))
  {
    var present := fs.Exists(ParquetPath(0));
    if !present {
      fs.System(PlacesCommand);
      fs.System(CategoriesCommand);
    }
  }

  function InitFixed(d: Disk, mayCreate: Path -> bool): Disk {
    FetchMissing(MakeAll(d, mayCreate, DataDirs).0)
  }

  method InitializeFixed(fs: FileSystem, mayCreate: Path -> bool)
    modifies fs
    ensures fs.State() == InitFixed(old(fs.State()), mayCreate)
  {
    var _ := MakeDirectories(fs, mayCreate);
    DownloadMissing(fs);
  }

  /** With the first shard as the guard, the commands follow the directory
      calls exactly when that shard was missing before initialize began. */
  lemma FixedInitDownloadsIffShardMissing(d: Disk, mayCreate: Path -> bool)
    ensures var e := MakeAll(d, mayCreate, DataDirs).0;
            && InitFixed(d, mayCreate).files == d.files
            && (PathExists(d, ParquetPath(0)) <==> InitFixed(d, mayCreate).trace == e.trace)
            && (!PathExists(d, ParquetPath(0)) ==> InitFixed(d, mayCreate).trace == e.trace + Commands)
  {
    var e := MakeAll(d, mayCreate, DataDirs).0;
    ParquetPathUncovered(0);
    UncoveredUntouched(d, mayCreate, DataDirs, ParquetPath(0));
    MakeAllFrame(d, mayCreate, DataDirs);
    if !PathExists(e, ParquetPath(0)) {
      assert |InitFixed(d, mayCreate).trace| == |e.trace| + 2;
    }
  }

  // ---------------------------------------------------------------------
  // get_raw_data_df
  // ---------------------------------------------------------------------

  /** get_raw_data_df(raw_data_path, refresh): the combined file is read
      back with inferred column types, and every shard is kept whole. */
  method GetRawDataDf(fs: FileSystem, codec: Codec, rawPath: Path, refresh: bool) returns (r: Result<Table>)
    modifies fs
    ensures After(fs.State(), r) == RawData(old(fs.State()), codec, rawPath, refresh, false, codec.readCsvChunked)
  {
    r := GetRawData(fs, codec, rawPath, refresh, false, codec.readCsvChunked);
  }

  /** The shards are appended as converted: the combined table has the
      columns of shard 0 and as many rows as all converted shards. */
  lemma RebuildKeepsShards(d: Disk, codec: Codec, rawPath: Path, refresh: bool)
    requires !(PathExists(d, rawPath) && !refresh)
    requires RawData(d, codec, rawPath, refresh, false, codec.readCsvChunked).result.Ok?
    ensures forall i :: 0 <= i < ShardCount ==>
              ShardTable(d, codec, i, refresh, false) == Conversion(d, codec, i, refresh).result
    ensures Conversion(d, codec, 0, refresh).result.Ok?
    ensures RawData(d, codec, rawPath, refresh, false, codec.readCsvChunked).result.value.columns ==
            Conversion(d, codec, 0, refresh).result.value.columns
  {
    RebuildStored(d, codec, rawPath, refresh, false, codec.readCsvChunked);
  }

  // ---------------------------------------------------------------------
  // raw_data_path.replace(".csv", ".zstd.parquet")
  // ---------------------------------------------------------------------

  /** w occurs in s at index i. */
  predicate Occurs(s: string, w: string, i: int) {
    0 <= i && i + |w| <= |s| && s[i..i + |w|] == w
  }

  /** str.replace(pattern, by): every occurrence of pattern, scanning from
      the left and without overlaps, is replaced by repl. */
  function Replace(s: string, pattern: string, repl: string): string
    requires pattern != []
    decreases |s|
  {
    if |s| < |pattern| then s
    else if s[..|pattern|] == pattern then repl + Replace(s[|pattern|..], pattern, repl)
    else [s[0]] + Replace(s[1..], pattern, repl)
  }

  const Csv: string := ".csv"
  const ZstdParquet: string := ".zstd.parquet"

  /** Where the main block writes the Parquet copy. */
  function ParquetOutputPath(p: Path): Path {
    Replace(p, Csv, ZstdParquet)
  }

  /** A string without the pattern is left as it is. */
  lemma {:induction false} ReplaceAbsent(s: string, pattern: string, repl: string)
    requires pattern != []
    requires forall i :: !Occurs(s, pattern, i)
    ensures Replace(s, pattern, repl) == s
    decreases |s|
  {
    if |s| >= |pattern| {
      assert !Occurs(s, pattern, 0);
      forall i
        ensures !Occurs(s[1..], pattern, i)
      {
        if 0 <= i && i + |pattern| <= |s[1..]| {
          assert s[1..][i..i + |pattern|] == s[i + 1..i + 1 + |pattern|];
          assert !Occurs(s, pattern, i + 1);
        }
      }
      ReplaceAbsent(s[1..], pattern, repl);
    }
  }

  /** A prefix without '.' of the rewritten string was already a prefix of
      the original: the replacement starts with '.'. */
  lemma {:induction false} PrefixKept(s: string, w: string)
    requires '.' !in w
    requires |w| <= |ParquetOutputPath(s)| && ParquetOutputPath(s)[..|w|] == w
    ensures |w| <= |s| && s[..|w|] == w
    decreases |s|
  {
    var r := ParquetOutputPath(s);
    if |s| >= |Csv| && w != [] {
      assert w[0] in w && w[0] == r[0];
      assert s[..|Csv|] != Csv;
      var rest := ParquetOutputPath(s[1..]);
      assert r == [s[0]] + rest;
      assert w[1..] == r[..|w|][1..] == rest[..|w| - 1];
      assert forall c :: c in w[1..] ==> c in w;
      PrefixKept(s[1..], w[1..]);
      assert s[..|w|] == [s[0]] + s[1..][..|w| - 1];
    }
  }

  /** The replacement holds no ".csv", nor does any stretch running from it
      into what follows. */
  lemma ReplacementClean(t: string, i: int)
    requires 0 <= i < |ZstdParquet|
    ensures !Occurs(ZstdParquet + t, Csv, i)
  {
    var u := ZstdParquet + t;
    assert forall j :: 0 <= j < |ZstdParquet| && ZstdParquet[j] == '.' ==> j == 0 || j == 5;
    assert u[i] == ZstdParquet[i];
    assert i + 1 < |ZstdParquet| ==> u[i + 1] == ZstdParquet[i + 1];
  }

  /** No ".csv" is left after the rewrite. */
  lemma {:induction false} NoCsvLeft(s: string)
    ensures forall i :: !Occurs(ParquetOutputPath(s), Csv, i)
    decreases |s|
  {
    var r := ParquetOutputPath(s);
    if |s| < |Csv| {
      assert r == s;
    } else if s[..|Csv|] == Csv {
      var rest := ParquetOutputPath(s[|Csv|..]);
      NoCsvLeft(s[|Csv|..]);
      assert r == ZstdParquet + rest;
      forall i
        ensures !Occurs(r, Csv, i)
      {
        if 0 <= i < |ZstdParquet| {
          ReplacementClean(rest, i);
        } else if |ZstdParquet| <= i && i + |Csv| <= |r| {
          assert r[i..i + |Csv|] == rest[i - |ZstdParquet|..i - |ZstdParquet| + |Csv|];
          assert !Occurs(rest, Csv, i - |ZstdParquet|);
        }
      }
    } else {
      var rest := ParquetOutputPath(s[1..]);
      NoCsvLeft(s[1..]);
      assert r == [s[0]] + rest;
      forall i
        ensures !Occurs(r, Csv, i)
      {
        if i == 0 && Occurs(r, Csv, 0) {
          assert rest[..3] == r[1..4];
          PrefixKept(s[1..], "csv");
        } else if i > 0 && i + |Csv| <= |r| {
          assert r[i..i + |Csv|] == rest[i - 1..i - 1 + |Csv|];
          assert !Occurs(rest, Csv, i - 1);
        }
      }
    }
  }

  /** A name without '.' followed by ".csv" gets ".zstd.parquet" instead. */
  lemma CsvSuffixRewritten(a: string)
    requires '.' !in a
    ensures ParquetOutputPath(a + Csv) == a + ZstdParquet
  {
    var s := a + Csv;
    forall i | 0 <= i < |a|
      ensures s[i] != '.'
    {
      assert s[i] == a[i];
    }
    CopiedUpToDot(s, |a|);
    assert s[..|a|] == a && s[|a|..] == Csv;
    assert ParquetOutputPath(Csv) == ZstdParquet + ParquetOutputPath([]);
  }

  /** The main block's path: data/raw_data.csv becomes data/raw_data.zstd.parquet. */
  lemma RawParquetPath()
    ensures ParquetOutputPath(RawDataPath) == "data/raw_data" + ".zstd.parquet"
  {
    assert RawDataPath == "data/raw_data" + Csv;
    CsvSuffixRewritten("data/raw_data");
  }

  /** Characters before the first '.' are copied one by one. */
  lemma {:induction false} CopiedUpToDot(s: string, k: nat)
    requires k <= |s| && forall i | 0 <= i < k :: s[i] != '.'
    ensures ParquetOutputPath(s) == s[..k] + ParquetOutputPath(s[k..])
    decreases k
  {
    if k > 0 {
      CopiedUpToDot(s, k - 1);
      var t := s[k - 1..];
      assert t[0] == s[k - 1];
      if |t| >= |Csv| {
        assert t[..|Csv|][0] != Csv[0];
      }
      assert ParquetOutputPath(t) == [t[0]] + ParquetOutputPath(t[1..]);
      assert t[1..] == s[k..];
      assert s[..k] == s[..k - 1] + [t[0]];
    }
  }

  // ---------------------------------------------------------------------
  // The main block
  // ---------------------------------------------------------------------

  /** initialize(), get_raw_data_df() with its defaults, then the Parquet
      copy of the combined table; an exception ends the run. */
  function Run(d: Disk, codec: Codec, mayCreate: Path -> bool): After<()> {
    var e := Init(d, mayCreate);
    var a := RawData(e, codec, RawDataPath, false, false, codec.readCsvChunked);
    if a.result.Err? then After(a.disk, Err(a.result.error))
    else
      var p := ParquetOutputPath(RawDataPath);
      WriteStep(a.disk, p, a.result.value, ParquetWritten(p, a.result.value))
  }

  method RunScript(fs: FileSystem, codec: Codec, mayCreate: Path -> bool) returns (r: Result<()>)
    modifies fs
    ensures After(fs.State(), r) == Run(old(fs.State()), codec, mayCreate)
  {
    Initialize(fs, mayCreate);
    var t := GetRawDataDf(fs, codec, RawDataPath, false);
    if t.Err? {
      return Err(t.error);
    }
    r := fs.WriteParquet(ParquetOutputPath(RawDataPath), t.value);
  }

  /** The raw data path is no prefix of a data directory. */
  lemma RawDataPathUncovered()
    ensures !Covered(DataDirs, RawDataPath)
  {
    assert RawDataPath[5] == 'r';
    assert forall i :: 0 <= i < |DataDirs| ==> |DataDirs[i]| <= 5 || DataDirs[i][5] != 'r';
  }

  /** No shard file is a prefix of a data directory. */
  lemma ConvertedPathUncovered(i: nat)
    ensures !Covered(DataDirs, ConvertedPath(i))
  {
    assert |ConvertedPath(i)| >= 38;
    assert forall j :: 0 <= j < |DataDirs| ==> |DataDirs[j]| < 38;
  }

  /** No source shard is a prefix of a data directory. */
  lemma ParquetPathUncovered(i: nat)
    ensures !Covered(DataDirs, ParquetPath(i))
  {
    assert |ParquetPath(i)| >= 43;
    assert forall j :: 0 <= j < |DataDirs| ==> |DataDirs[j]| < 43;
  }

  /** On a machine with nothing on it, where every directory may be
      created, the script as written creates the directories, skips the
      download because the places directory now exists, and then fails on
      the first missing shard. */
  lemma FreshMachineNeverDownloads(codec: Codec, mayCreate: Path -> bool)
    requires forall p :: mayCreate(p)
    ensures var d := Disk(map[], {}, []);
            && Init(d, mayCreate).trace == Attempts(DataDirs)
            && Run(d, codec, mayCreate).result == Err(NoSuchFile(ParquetPath(0)))
  {
    var d := Disk(map[], {}, []);
    MakeAllSucceeds(d, mayCreate, DataDirs);
    DirectoriesSuppressDownload(d, mayCreate);
    var e := Init(d, mayCreate);
    MakeAllOutcome(d, mayCreate, DataDirs);
    assert e.trace == Attempts(DataDirs);
    MakeAllFrame(d, mayCreate, DataDirs);
    RawDataPathUncovered();
    UncoveredUntouched(d, mayCreate, DataDirs, RawDataPath);
    ConvertedPathUncovered(0);
    UncoveredUntouched(d, mayCreate, DataDirs, ConvertedPath(0));
    MissingSourceFails(e, codec, 0, false);
    FirstShardFails(e, codec);
  }

  /** With neither the combined file, nor shard 0's converted file, nor its
      source, the rebuild stops at shard 0 with the read_table error. */
  lemma FirstShardFails(e: Disk, codec: Codec)
    requires !PathExists(e, RawDataPath) && !PathExists(e, ConvertedPath(0)) && ParquetPath(0) !in e.files
    ensures RawData(e, codec, RawDataPath, false, false, codec.readCsvChunked).result == Err(NoSuchFile(ParquetPath(0)))
  {
    MissingSourceFails(e, codec, 0, false);
    var step := Turns(codec, false, false);
    assert step(e, 0) == ShardStep(e, codec, 0, false, false);
    assert ShardTable(e, codec, 0, false, false) == Err(NoSuchFile(ParquetPath(0)));
    assert Fold(e, step, 0) == After(e, Ok([]));
    assert Shards(e, codec, false, false, 1).result == Err(NoSuchFile(ParquetPath(0)));
    ShardsStopAtFailure(e, codec, false, false, 1, ShardCount);
  }

  /** The corrected guard downloads on that machine. */
  lemma FreshMachineDownloadsWhenFixed(mayCreate: Path -> bool)
    ensures var d := Disk(map[], {}, []);
            InitFixed(d, mayCreate).trace == MakeAll(d, mayCreate, DataDirs).0.trace + Commands
  {
    FixedInitDownloadsIffShardMissing(Disk(map[], {}, []), mayCreate);
  }
}
