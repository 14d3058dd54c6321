/** code/datacollection/foursquare.py, the July 2025 release script: the
    download guarded by the first place shard, get_raw_data_df with the
    geom column dropped, and save_clean_data's column rename. */
module Foursquare {
  import opened Errors
  import opened Tables
  import opened Paths
  import opened Os
  import opened Pipeline
  import opened Directories

  /** The defaults of get_raw_data_df and the paths the main block uses. */
  const RawDataPath: Path := "data/foursquare.csv"
  const CleanDataPath: Path := "data/foursquare_clean.csv"

  /** download_foursquare skips the download when this file exists. */
  const Marker: Path := "data/downloaded/places/places-00000.zstd.parquet"

  const PlacesCommand: string :=
    "aws s3 cp --no-sign s3://fsq-os-places-us-east-1/release/dt=2025-07-08/places/parquet data/downloaded/places/ --recursive"
  const CategoriesCommand: string :=
    "aws s3 cp --no-sign s3://fsq-os-places-us-east-1/release/dt=2025-07-08/categories/parquet data/downloaded/categories/ --recursive"

  /** The marker is the first shard the loop reads. */
  lemma MarkerIsFirstShard()
    ensures Marker == ParquetPath(0)
  {
    Pad5Zero();
  }

  /** The marker is too long to be one of the data directories or a prefix
      of one. */
  lemma MarkerUncovered()
    ensures !Covered(DataDirs, Marker)
  {
    assert |Marker| == 48;
    assert forall i :: 0 <= i < |DataDirs| ==> |DataDirs[i]| < 48;
  }

  // ---------------------------------------------------------------------
  // download_foursquare and initialize
  // ---------------------------------------------------------------------

  function Download(d: Disk): Disk {
    if PathExists(d, Marker) then d
    else SystemStep(SystemStep(d, PlacesCommand), CategoriesCommand)
  }

  method DownloadFoursquare(fs: FileSystem)
    modifies fs
    ensures fs.State() == Download(old(fs.State()))
  {
    var present := fs.Exists(Marker);
    if present {
      return;
    }
    fs.System(PlacesCommand);
    fs.System(CategoriesCommand);
  }

  /** The download touches no file or directory of the model; it runs the
      two copy commands, places first, exactly when the marker is missing. */
  lemma DownloadRunsCommands(d: Disk)
    ensures Download(d).files == d.files && Download(d).dirs == d.dirs
    ensures PathExists(d, Marker) <==> Download(d).trace == d.trace
    ensures !PathExists(d, Marker) ==>
              Download(d).trace == d.trace + [CommandRun(PlacesCommand), CommandRun(CategoriesCommand)]
  {
    if !PathExists(d, Marker) {
      assert |Download(d).trace| == |d.trace| + 2;
    }
  }

  /** initialize: the result of make_directories is ignored. */
  function Init(d: Disk, mayCreate: Path -> bool): Disk {
    Download(MakeAll(d, mayCreate, DataDirs).0)
  }

  method Initialize(fs: FileSystem, mayCreate: Path -> bool)
    modifies fs
    ensures fs.State() == Init(old(fs.State()), mayCreate)
  {
    var _ := MakeDirectories(fs, mayCreate);
    DownloadFoursquare(fs);
  }

  /** Creating the directories never decides the download: the two
      commands follow the directory calls exactly when the marker was
      missing before initialize began, whether or not a call failed. */
  lemma InitializeDownloadsIffMarkerMissing(d: Disk, mayCreate: Path -> bool)
    ensures var e := MakeAll(d, mayCreate, DataDirs).0;
            && Init(d, mayCreate).files == d.files
            && (PathExists(d, Marker) <==> Init(d, mayCreate).trace == e.trace)
            && (!PathExists(d, Marker) ==>
                  Init(d, mayCreate).trace == e.trace + [CommandRun(PlacesCommand), CommandRun(CategoriesCommand)])
  {
    var e := MakeAll(d, mayCreate, DataDirs).0;
    MarkerUncovered();
    UncoveredUntouched(d, mayCreate, DataDirs, Marker);
    MakeAllFrame(d, mayCreate, DataDirs);
    DownloadRunsCommands(e);
  }

  // ---------------------------------------------------------------------
  // get_raw_data_df
  // ---------------------------------------------------------------------

  /** get_raw_data_df(raw_data_path, refresh): the combined file is read
      back with every column as text, and each shard loses its geom column. */
  method GetRawDataDf(fs: FileSystem, codec: Codec, rawPath: Path, refresh: bool) returns (r: Result<Table>)
    modifies fs
    ensures After(fs.State(), r) == RawData(old(fs.State()), codec, rawPath, refresh, true, codec.readCsvText)
  {
    r := GetRawData(fs, codec, rawPath, refresh, true, codec.readCsvText);
  }

  /** A rebuild succeeds only when every shard had a geom column, and the
      combined table has none. */
  lemma RebuildDropsGeom(d: Disk, codec: Codec, rawPath: Path, refresh: bool)
    requires !(PathExists(d, rawPath) && !refresh)
    requires RawData(d, codec, rawPath, refresh, true, codec.readCsvText).result.Ok?
    ensures GeomColumn !in RawData(d, codec, rawPath, refresh, true, codec.readCsvText).result.value.columns
    ensures forall i :: 0 <= i < ShardCount ==>
              && Conversion(d, codec, i, refresh).result.Ok?
              && GeomColumn in Conversion(d, codec, i, refresh).result.value.columns
  {
    RebuildStored(d, codec, rawPath, refresh, true, codec.readCsvText);
    RebuildTrace(d, codec, rawPath, refresh, true, codec.readCsvText);
    forall i | 0 <= i < ShardCount
      ensures && Conversion(d, codec, i, refresh).result.Ok?
              && GeomColumn in Conversion(d, codec, i, refresh).result.value.columns
    {
      PreparedShardHasNoGeom(d, codec, i, refresh);
    }
    PreparedShardHasNoGeom(d, codec, 0, refresh);
  }

  /** One shard's turn succeeds only when its table had a geom column, and
      what it contributes has none. */
  lemma PreparedShardHasNoGeom(d: Disk, codec: Codec, i: nat, refresh: bool)
    requires ShardTable(d, codec, i, refresh, true).Ok?
    ensures Conversion(d, codec, i, refresh).result.Ok?
    ensures GeomColumn in Conversion(d, codec, i, refresh).result.value.columns
    ensures GeomColumn !in ShardTable(d, codec, i, refresh, true).value.columns
  {
  }

  /** A shard without a geom column makes the rebuild fail with the
      KeyError of DataFrame.drop, or an earlier error. */
  lemma ShardWithoutGeomFails(d: Disk, codec: Codec, rawPath: Path, refresh: bool, i: nat)
    requires !(PathExists(d, rawPath) && !refresh) && i < ShardCount
    requires Conversion(d, codec, i, refresh).result.Ok?
    requires GeomColumn !in Conversion(d, codec, i, refresh).result.value.columns
    ensures RawData(d, codec, rawPath, refresh, true, codec.readCsvText).result.Err?
  {
    if RawData(d, codec, rawPath, refresh, true, codec.readCsvText).result.Ok? {
      RebuildDropsGeom(d, codec, rawPath, refresh);
      assert false;
    }
  }

  // ---------------------------------------------------------------------
  // save_clean_data
  // ---------------------------------------------------------------------

  const Prefix: string := "fsq_"

  /** str.startswith("fsq_") */
  predicate HasPrefix(s: string) {
    |s| >= |Prefix| && s[..|Prefix|] == Prefix
  }

  /** The new name of one column. */
  function CleanName(c: string): string {
    if HasPrefix(c) then c else Prefix + c
  }

  /** The new column list, one name per old column, in order. */
  function CleanColumns(cs: seq<string>): seq<string> {
    seq(|cs|, i requires 0 <= i < |cs| => CleanName(cs[i]))
  }

  /** The copy save_clean_data writes: same rows, renamed columns. */
  function Clean(t: Table): Table {
    Table(CleanColumns(t.columns), t.rows)
  }

  method SaveCleanData(fs: FileSystem, t: Table, cleanPath: Path) returns (r: Result<()>)
    modifies fs
    ensures After(fs.State(), r) == WriteStep(old(fs.State()), cleanPath, Clean(t), CsvWritten(cleanPath, Clean(t)))
  {
    r := fs.WriteCsv(cleanPath, Clean(t));
  }

  /** Every new name carries the prefix; a name that had it is kept, any
      other gains it in front; the list keeps its length and order. */
  lemma CleanColumnsShape(cs: seq<string>)
    ensures |CleanColumns(cs)| == |cs|
    ensures forall i :: 0 <= i < |cs| ==> HasPrefix(CleanColumns(cs)[i])
    ensures forall i :: 0 <= i < |cs| && HasPrefix(cs[i]) ==> CleanColumns(cs)[i] == cs[i]
    ensures forall i :: 0 <= i < |cs| && !HasPrefix(cs[i]) ==> CleanColumns(cs)[i] == Prefix + cs[i]
  {
    forall i | 0 <= i < |cs| && !HasPrefix(cs[i])
      ensures HasPrefix(CleanColumns(cs)[i])
    {
      assert (Prefix + cs[i])[..|Prefix|] == Prefix;
    }
  }

  /** Renaming twice renames once. */
  lemma CleanColumnsIdempotent(cs: seq<string>)
    ensures CleanColumns(CleanColumns(cs)) == CleanColumns(cs)
  {
    CleanColumnsShape(cs);
  }

  /** Two names collide exactly when they are equal or one is the other
      with the prefix added to a name that lacked it. */
  lemma CleanNameCollision(a: string, b: string)
    ensures CleanName(a) == CleanName(b) <==>
            a == b || (!HasPrefix(a) && b == Prefix + a) || (!HasPrefix(b) && a == Prefix + b)
  {
    CleanColumnsShape([a, b]);
    assert CleanColumns([a, b])[0] == CleanName(a) && CleanColumns([a, b])[1] == CleanName(b);
    if !HasPrefix(a) && !HasPrefix(b) && CleanName(a) == CleanName(b) {
      assert a == (Prefix + a)[|Prefix|..] == (Prefix + b)[|Prefix|..] == b;
    }
  }

  /** The rename keeps distinct names distinct when no name also appears
      with the prefix added. */
  lemma CleanColumnsDistinct(cs: seq<string>)
    requires forall i, j :: 0 <= i < j < |cs| ==> cs[i] != cs[j]
    requires forall i, j :: 0 <= i < |cs| && 0 <= j < |cs| ==> cs[j] != Prefix + cs[i]
    ensures forall i, j :: 0 <= i < j < |cs| ==> CleanColumns(cs)[i] != CleanColumns(cs)[j]
  {
    forall i, j | 0 <= i < j < |cs|
      ensures CleanColumns(cs)[i] != CleanColumns(cs)[j]
    {
      CleanNameCollision(cs[i], cs[j]);
    }
  }

  /** The rename is not one-to-one: id and fsq_id both become fsq_id. */
  lemma CleanColumnsCollide()
    ensures CleanColumns(["id", "fsq_id"]) == ["fsq_id", "fsq_id"]
  {
    assert !HasPrefix("id");
    assert HasPrefix("fsq_id");
    assert CleanName("id") == "fsq_id";
  }

  /** The clean copy is a well-formed table whenever the input is. */
  lemma CleanWellFormed(t: Table)
    requires WellFormed(t)
    ensures WellFormed(Clean(t)) && Clean(t).rows == t.rows
  {
    CleanColumnsShape(t.columns);
  }

  /** Saving writes the clean copy to its path and changes no other file. */
  lemma SaveCleanDataStores(d: Disk, t: Table, cleanPath: Path)
    requires WriteStep(d, cleanPath, Clean(t), CsvWritten(cleanPath, Clean(t))).result.Ok?
    ensures var e := WriteStep(d, cleanPath, Clean(t), CsvWritten(cleanPath, Clean(t))).disk;
            && e.files == d.files[cleanPath := Clean(t)]
            && e.dirs == d.dirs
  {
  }

  // ---------------------------------------------------------------------
  // The main block
  // ---------------------------------------------------------------------

  /** initialize(), get_raw_data_df() with its defaults, then
      save_clean_data to the clean path; an exception ends the run. */
  function Run(d: Disk, codec: Codec, mayCreate: Path -> bool): After<()> {
    var e := Init(d, mayCreate);
    var a := RawData(e, codec, RawDataPath, false, true, codec.readCsvText);
    if a.result.Err? then After(a.disk, Err(a.result.error))
    else WriteStep(a.disk, CleanDataPath, Clean(a.result.value), CsvWritten(CleanDataPath, Clean(a.result.value)))
  }

  method RunScript(fs: FileSystem, codec: Codec, mayCreate: Path -> bool) returns (r: Result<()>)
    modifies fs
    ensures After(fs.State(), r) == Run(old(fs.State()), codec, mayCreate)
  {
    Initialize(fs, mayCreate);
    var t := GetRawDataDf(fs, codec, RawDataPath, false);
    if t.Err? {
      return Err(t.error);
    }
    r := SaveCleanData(fs, t.value, CleanDataPath);
  }

  /** A successful run leaves at the clean path the renamed copy of what
      get_raw_data_df returned: its rows, and every column name carrying
      the prefix. */
  lemma RunStoresCleanCopy(d: Disk, codec: Codec, mayCreate: Path -> bool)
    requires Run(d, codec, mayCreate).result.Ok?
    ensures var a := RawData(Init(d, mayCreate), codec, RawDataPath, false, true, codec.readCsvText);
            var f := Run(d, codec, mayCreate).disk.files;
            && a.result.Ok? && CleanDataPath in f
            && f[CleanDataPath] == Clean(a.result.value)
            && f[CleanDataPath].rows == a.result.value.rows
            && |f[CleanDataPath].columns| == |a.result.value.columns|
            && forall i :: 0 <= i < |f[CleanDataPath].columns| ==> HasPrefix(f[CleanDataPath].columns[i])
  {
    var a := RawData(Init(d, mayCreate), codec, RawDataPath, false, true, codec.readCsvText);
    CleanColumnsShape(a.result.value.columns);
  }
}
