# Foursquare Open Places download scripts, modelled in Dafny

Two scripts under `code/datacollection/` fetch the Foursquare Open Places
release with the `aws` command line tool. They convert the 100 Parquet
place shards to CSV, caching each one, and concatenate the shards into one
combined CSV file. `foursquare.py` handles the July 2025 release. It drops
each shard's `geom` column and writes a copy whose columns carry the
`fsq_` prefix. `fsq_download.py` handles the February 2025 release. It
keeps every column and writes a Parquet copy of the combined table.

The model keeps the decision logic and treats the data libraries as
abstract:

- **Os**: the file system as a class `FileSystem` with a file map
  (path to table), a directory set and a trace of every call made:
  reads, writes, `makedirs`, `os.system`. Each method's contract states
  the new state as a step function on the value `Disk`.
- **Tables**: a table is a column-name list plus rows. `DataFrame.drop`
  and `pandas.concat` are written out on it.
- **Paths**: the zero-padded shard paths and the parent/ancestor
  relation that `os.makedirs` and writes use.
- **ShardLoop**: the `for i in range(100)` loop as a fold over turns. It
  is proved once, for any turn that touches only its own output file.
- **Pipeline**: `get_raw_data_df`, shared by both scripts and
  parameterised by the geom drop and by how the combined file is read
  back. `GetRawData` is the imperative loop. It is proved against the
  functions `Conversion`, `Shards` and `RawData`, and the lemmas are
  stated over those functions.
- **Directories**: `make_directories`, which is identical in both
  scripts.
- **Foursquare** and **FsqDownload**: the rest of each script, including
  each main block.

One might expect the column rename to be one-to-one. It is not: `id` and `fsq_id` both become `fsq_id`. The
model follows the code, proves the collision
(`Foursquare.CleanColumnsCollide`) and states exactly when two names
collide (`Foursquare.CleanNameCollision`).

## Model

| member | source | states |
|---|---|---|
| Tables.DropColumn | code/datacollection/foursquare.py:31 | The only failure is `MissingColumn(name)`, and it happens exactly when the column is absent. On success that column is gone, every other column is kept, the row count is unchanged and a well-formed table stays well-formed. Order and cells: `DropColumnKeepsOrder`. |
| Tables.DropColumnKeepsOrder | code/datacollection/foursquare.py:31 | The kept columns keep their order: column j, if not the dropped one, moves to the position counted by the kept columns before it. Every row keeps its cell under each kept column at that same position. |
| Tables.Concat | code/datacollection/foursquare.py:33 | `pandas.concat(ignore_index=True)` over tables with one column list: that list, then every table's rows, table after table. Its properties: `ConcatRowCount`, `ConcatRowOrder`, `ConcatWellFormed`. |
| Tables.ConcatRowCount | code/datacollection/foursquare.py:33 | The concatenation has as many rows as all the tables together, and the first table's column list. |
| Tables.ConcatRowOrder | code/datacollection/foursquare.py:33 | Row k of table i is row TotalRows(ts[..i]) + k of the concatenation: tables stay in order, and rows stay in order within each. |
| Tables.ConcatWellFormed | code/datacollection/foursquare.py:33 | Concatenating well-formed tables with equal columns gives a well-formed table. |
| Paths.Pad5Value | code/datacollection/foursquare.py:21 | The `{i:05d}` digits read back as i. |
| Paths.Pad5 | code/datacollection/foursquare.py:21 | `{i:05d}`: at least five decimal digits. Their value is `Pad5Value`, and their width is `Pad5Width`. |
| Paths.Pad5Width | code/datacollection/foursquare.py:21 | Every index below 100000 pads to exactly five digits. |
| Paths.ConvertedPath | code/datacollection/foursquare.py:21 | The shard's CSV path, `data/converted/places/places-` + the padded index + `.csv`. Its properties: `ConvertedPathInjective`, `ConvertedPathSeven`, `ShardParents`. |
| Paths.ParquetPath | code/datacollection/foursquare.py:27 | The shard's source path under `data/downloaded/places`, ending `.zstd.parquet`. Its properties: `ParquetPathInjective`, `ParquetPathSeven`, `ShardParents`. |
| Paths.Pad5Injective | code/datacollection/foursquare.py:21 | Distinct indices get distinct padded digits. |
| Paths.ConvertedPathInjective | code/datacollection/foursquare.py:21 | Distinct shard indices have distinct converted CSV paths. |
| Paths.ParquetPathInjective | code/datacollection/foursquare.py:27 | Distinct shard indices have distinct Parquet source paths. |
| Paths.ConvertedIsNotParquet | code/datacollection/foursquare.py:21-27 | No converted path is a source path. |
| Paths.ConvertedPathSeven | code/datacollection/foursquare.py:21 | Shard 7's CSV is `data/converted/places/places-00007.csv`. |
| Paths.ParquetPathSeven | code/datacollection/foursquare.py:27 | Shard 7's source is `data/downloaded/places/places-00007.zstd.parquet`. |
| Paths.Pad5Zero | code/datacollection/foursquare.py:41 | Index 0 pads to `00000`. |
| Paths.ShardParents | code/datacollection/foursquare.py:29 | Every converted file lies in `data/converted/places`, and every source file lies in `data/downloaded/places`. |
| Paths.AncestorsArePrefixes | code/datacollection/foursquare.py:52-58 | Every ancestor `os.makedirs` may create is a proper prefix of the path. |
| Os.FileSystem.Exists | code/datacollection/foursquare.py:15 | `os.path.exists` is true exactly for a file or a directory. |
| Os.FileSystem.ReadCsv | code/datacollection/foursquare.py:17 | The read is logged. It gives the decoded table at the path, or NoSuchFile. Nothing else changes. |
| Os.FileSystem.ReadParquet | code/datacollection/foursquare.py:27 | The same for `read_table` and `to_pandas`. |
| Os.FileSystem.WriteCsv | code/datacollection/foursquare.py:29 | The write is logged. It fails on a directory or a missing parent directory. Otherwise the path now holds the table. |
| Os.FileSystem.WriteParquet | code/datacollection/fsq_download.py:74 | The same for `write_table`. |
| Os.FileSystem.Write | code/datacollection/foursquare.py:34 | The shared write rule: logged, refused on a directory or a missing parent, otherwise the file map is updated at that path only. |
| Os.FileSystem.MakeDirs | code/datacollection/foursquare.py:52 | `makedirs(exist_ok=True)` is logged. It succeeds on an existing directory. Otherwise it creates the path and its ancestors unless one of them is a file or the system refuses. |
| Os.FileSystem.System | code/datacollection/foursquare.py:46 | `os.system` only logs the command. |
| ShardLoop.Fold | code/datacollection/foursquare.py:19-32 | A loop that completes has appended exactly n tables. |
| ShardLoop.FoldStop | code/datacollection/foursquare.py:19-32 | After the first failing turn nothing more happens: the exception ends the loop. |
| ShardLoop.FoldFrame | code/datacollection/foursquare.py:19-32 | When no turn creates directories and each turn writes only its own file, the loop keeps the directories, and every path it was not told to write is unchanged. |
| ShardLoop.FoldFromStart | code/datacollection/foursquare.py:19-32 | Before turn i, turn i's files and the directories are as they were at the start. |
| ShardLoop.FoldTables | code/datacollection/foursquare.py:19-32 | The loop succeeds iff every turn succeeds on the starting disk. Its list holds those turns' tables in index order. |
| ShardLoop.FoldTrace | code/datacollection/foursquare.py:19-32 | A completed loop logged each turn's calls once each, in index order. |
| ShardLoop.FoldOutputs | code/datacollection/foursquare.py:19-32 | After a completed loop each turn's output file holds what that turn wrote. |
| Pipeline.Conversion | code/datacollection/foursquare.py:22-29 | A cache hit reads the converted CSV, with no Parquet read and no write. Otherwise the Parquet source is read and copied to the converted path. A missing source fails and writes nothing. Directories never change. |
| Pipeline.ConvertShard | code/datacollection/foursquare.py:21-29 | The loop body on the file system does what `Conversion` says. |
| Pipeline.GetRawData | code/datacollection/foursquare.py:14-34 | The method with its loop does what `RawData` says to the file system and the result. |
| Pipeline.Shards | code/datacollection/foursquare.py:19-32 | The 100-shard loop as a fold of the shard turns. Its properties: `ShardsTables`, `ShardsTrace`, `ShardsFrame`, `ShardsConverted`, `ShardsStopAtFailure`. |
| Pipeline.RawData | code/datacollection/foursquare.py:14-34 | `get_raw_data_df` on a disk: read the combined file when it exists and refresh is off. Otherwise run the loop, concatenate and write back. Its properties: `CombinedCacheHit` and the `Rebuild` lemmas. |
| Pipeline.CachedShardIsRead | code/datacollection/foursquare.py:22-24 | With the converted file present and refresh off: exactly one CSV read, and its table is returned. |
| Pipeline.MissingSourceFails | code/datacollection/foursquare.py:27 | On a miss with no source file: NoSuchFile for that source, one read logged, files unchanged. |
| Pipeline.ConversionIsCached | code/datacollection/foursquare.py:22-29 | After a successful conversion, a second one with refresh off is a cache hit and reads only the CSV. |
| Pipeline.ConversionIsLocal | code/datacollection/fsq_download.py:21-30 | A conversion depends only on the directories and on its shard's two files. |
| Pipeline.TurnsAreLocal | code/datacollection/foursquare.py:19-32 | Each shard turn creates no directory, writes only its converted file and reads only its two files. The two path families are distinct. |
| Pipeline.ShardsStopAtFailure | code/datacollection/foursquare.py:19-32 | The first failing shard ends the loop. |
| Pipeline.ShardsFrame | code/datacollection/fsq_download.py:19-32 | The loop creates no directory and changes no file except its own converted files. |
| Pipeline.ShardsTables | code/datacollection/foursquare.py:19-32 | Success iff every shard is processed successfully. Then exactly 100 tables are appended, table i being shard i. |
| Pipeline.ShardsTrace | code/datacollection/fsq_download.py:20-32 | A completed loop made each shard's calls once each, in ascending order. |
| Pipeline.ShardsConverted | code/datacollection/foursquare.py:22-29 | After a completed loop every converted file holds its shard: either the cached file untouched, or the decoded source. |
| Pipeline.CombinedCacheHit | code/datacollection/foursquare.py:15-17 | With the combined file present and refresh off, the stored table is read. No shard file is read and nothing is written. |
| Pipeline.RebuildKeepsDirectories | code/datacollection/foursquare.py:18-34 | A rebuild creates no directory. |
| Pipeline.RebuildTrace | code/datacollection/fsq_download.py:18-34 | A successful rebuild processed each shard once, in ascending order, then wrote the combined file. |
| Pipeline.RebuildStored | code/datacollection/foursquare.py:33-34 | A successful rebuild leaves the combined table at the raw data path, with shard 0's columns. |
| Pipeline.RebuildRowCount | code/datacollection/fsq_download.py:33 | The combined row count is the sum of the shard row counts. |
| Pipeline.RebuildRowOrder | code/datacollection/foursquare.py:33 | All rows of shard i come before those of shard i+1, each in its own order. |
| Pipeline.RebuildShardColumns | code/datacollection/foursquare.py:31-33 | Each shard's prepared table has the combined table's columns. |
| Pipeline.RebuildShardRow | code/datacollection/foursquare.py:31-33 | In a successful rebuild, row k of shard i's prepared table is row `ShardRows(.., i) + k` of the combined table. The prepared table has the combined table's columns. |
| Pipeline.PreparedKeepsCells | code/datacollection/foursquare.py:31-32 | Preparing a shard loses nothing but `geom`. The cell at row k and column j of the converted shard is in the appended table at row k, under the same column name. It sits at position j, or, when `geom` is dropped, after only the kept columns before j. |
| Pipeline.RefreshRewritesEveryShard | code/datacollection/foursquare.py:22-29 | With refresh on, a successful rebuild read every source and rewrote every converted file. The one exception is a converted path equal to the raw data path, which the combined write then overwrites. |
| Directories.MakeDirectories | code/datacollection/foursquare.py:50-61 | The seven `makedirs` calls on the file system, with their result, are what `MakeAll` says. |
| Directories.MakeAll | code/datacollection/foursquare.py:50-61 | The `makedirs` calls in order, stopping at the first refusal, with the boolean result. Its properties: the `MakeAll` lemmas below. |
| Directories.MakeAllFrame | code/datacollection/fsq_download.py:49-60 | No file changes, and directories are only added. |
| Directories.MakeAllOutcome | code/datacollection/fsq_download.py:49-60 | The calls stop at the first failure, and true means all seven succeeded. The paths created before a failure remain. The failing call was refused because of a file in the way or the system. Nothing outside those paths and their ancestors is created. |
| Directories.MakeAllSucceeds | code/datacollection/foursquare.py:50-59 | Every call succeeds when each path is a directory already or may be created. |
| Directories.MakeAllExisting | code/datacollection/foursquare.py:50-59 | On an existing tree every call succeeds, and only the trace grows. |
| Directories.MakeAllCreates | code/datacollection/foursquare.py:50-59 | After success every one of the seven paths is a directory. |
| Directories.MakeAllAgain | code/datacollection/fsq_download.py:49-60 | Running it again after a success succeeds and changes nothing but the trace. |
| Directories.MadeCovered | code/datacollection/foursquare.py:50-58 | Whatever the calls create is a prefix of one of the seven paths. |
| Directories.UncoveredUntouched | code/datacollection/foursquare.py:50-58 | A path that is no such prefix exists afterwards iff it existed before. |
| Foursquare.MarkerIsFirstShard | code/datacollection/foursquare.py:41 | The download marker is the source file of shard 0. |
| Foursquare.MarkerUncovered | code/datacollection/foursquare.py:41 | `make_directories` cannot create the marker. |
| Foursquare.DownloadFoursquare | code/datacollection/foursquare.py:40-48 | The method does what `Download` says. |
| Foursquare.Download | code/datacollection/foursquare.py:40-48 | `download_foursquare` on a disk: guarded by the marker, then the two commands. Its properties: `DownloadRunsCommands`. |
| Foursquare.DownloadRunsCommands | code/datacollection/foursquare.py:41-47 | No commands if the marker exists. Otherwise exactly two, places then categories. No file or directory changes. |
| Foursquare.Initialize | code/datacollection/foursquare.py:63-65 | The method does what `Init` says: directories, then download, the boolean ignored. |
| Foursquare.Init | code/datacollection/foursquare.py:63-65 | `make_directories`, then `download_foursquare`, with the boolean ignored. Its properties: `InitializeDownloadsIffMarkerMissing`. |
| Foursquare.InitializeDownloadsIffMarkerMissing | code/datacollection/foursquare.py:63-65 | The two commands follow the directory calls iff the marker was missing beforehand, whatever `make_directories` did. |
| Foursquare.GetRawDataDf | code/datacollection/foursquare.py:14-37 | `GetRawData` with the geom drop and a text-typed read of the combined file. |
| Foursquare.RebuildDropsGeom | code/datacollection/foursquare.py:31-33 | After a successful rebuild the combined columns hold no `geom`, and every shard had one. |
| Foursquare.PreparedShardHasNoGeom | code/datacollection/foursquare.py:31 | A shard is appended only if it had `geom`, and the appended table has none. |
| Foursquare.ShardWithoutGeomFails | code/datacollection/foursquare.py:31 | One shard without `geom` makes the rebuild fail. |
| Foursquare.SaveCleanData | code/datacollection/foursquare.py:67-71 | The renamed copy is written to the clean path. |
| Foursquare.SaveCleanDataStores | code/datacollection/foursquare.py:71 | After the save, the clean path holds the renamed copy. No other file and no directory changes. |
| Foursquare.CleanName | code/datacollection/foursquare.py:69 | One column's new name: unchanged if it starts with `fsq_`, otherwise prefixed. Its properties: `CleanNameCollision`. |
| Foursquare.CleanColumns | code/datacollection/foursquare.py:69 | The comprehension: one new name per column, in order. Its properties: `CleanColumnsShape`, `CleanColumnsIdempotent`, `CleanColumnsDistinct`, `CleanColumnsCollide`. |
| Foursquare.Clean | code/datacollection/foursquare.py:68-69 | The copy: the same rows under the new names. Its properties: `CleanWellFormed`. |
| Foursquare.CleanColumnsShape | code/datacollection/foursquare.py:69 | Count and order are kept and every new name has `fsq_`. Prefixed names are unchanged, and others get the prefix in front. |
| Foursquare.CleanColumnsIdempotent | code/datacollection/foursquare.py:69 | Renaming twice equals renaming once. |
| Foursquare.CleanNameCollision | code/datacollection/foursquare.py:69 | Two names map to the same name iff they are equal or one is `fsq_` plus the other, unprefixed, name. |
| Foursquare.CleanColumnsDistinct | code/datacollection/foursquare.py:69 | Distinct names stay distinct when no name also appears with the prefix added. |
| Foursquare.CleanColumnsCollide | code/datacollection/foursquare.py:69 | `["id", "fsq_id"]` becomes `["fsq_id", "fsq_id"]`. |
| Foursquare.CleanWellFormed | code/datacollection/foursquare.py:68-69 | The copy keeps the rows and stays well-formed. |
| Foursquare.RunScript | code/datacollection/foursquare.py:73-78 | The main block does what `Run` says. |
| Foursquare.Run | code/datacollection/foursquare.py:73-78 | The main block on a disk: `initialize`, `get_raw_data_df()`, then the clean write, with an error ending the run. Its properties: `RunStoresCleanCopy`. |
| Foursquare.RunStoresCleanCopy | code/datacollection/foursquare.py:73-78 | A successful run leaves at the clean path exactly the renamed copy of the combined table: the combined rows, under the renamed columns, every one prefixed. |
| FsqDownload.DownloadFoursquare | code/datacollection/fsq_download.py:39-47 | The method does what `Download` says. |
| FsqDownload.Download | code/datacollection/fsq_download.py:39-47 | `download_foursquare` on a disk: guarded by the places directory, then the two commands. Its properties: `DownloadRunsCommands`. |
| FsqDownload.DownloadRunsCommands | code/datacollection/fsq_download.py:42-47 | The two commands run iff `data/downloaded/places` does not exist. No file or directory changes. |
| FsqDownload.Initialize | code/datacollection/fsq_download.py:62-64 | The method does what `Init` says. |
| FsqDownload.Init | code/datacollection/fsq_download.py:62-64 | `make_directories`, then `download_foursquare`, with the boolean ignored. Its properties: `DirectoriesSuppressDownload`, `FreshMachineNeverDownloads`. |
| FsqDownload.DirectoriesSuppressDownload | code/datacollection/fsq_download.py:49-64 | After `make_directories` returns true, `initialize` issues no download command. |
| FsqDownload.FreshMachineNeverDownloads | code/datacollection/fsq_download.py:42 | On an empty machine where every `makedirs` succeeds, the script never downloads. The run then fails with NoSuchFile on the missing first shard. |
| FsqDownload.FirstShardFails | code/datacollection/fsq_download.py:28 | With no combined file, no converted file for shard 0 and no source for it, the rebuild fails with NoSuchFile on shard 0's source. |
| FsqDownload.DownloadMissing | code/datacollection/fsq_download.py:42-44 | The corrected guard on the file system does what `FetchMissing` says. |
| FsqDownload.FetchMissing | code/datacollection/fsq_download.py:42-44 | The corrected download: guarded by shard 0's source file. Its properties: `FixedInitDownloadsIffShardMissing`. |
| FsqDownload.InitializeFixed | code/datacollection/fsq_download.py:62-64 | `initialize` with the corrected guard. |
| FsqDownload.InitFixed | code/datacollection/fsq_download.py:62-64 | `initialize` with the corrected download. Its properties: `FixedInitDownloadsIffShardMissing`, `FreshMachineDownloadsWhenFixed`. |
| FsqDownload.FixedInitDownloadsIffShardMissing | code/datacollection/fsq_download.py:42-44 | With the corrected guard, the commands follow iff shard 0's source was missing. |
| FsqDownload.FreshMachineDownloadsWhenFixed | code/datacollection/fsq_download.py:42-44 | With the corrected guard, the empty machine downloads. |
| FsqDownload.GetRawDataDf | code/datacollection/fsq_download.py:14-36 | `GetRawData` without a drop and with a plain read of the combined file. |
| FsqDownload.RebuildKeepsShards | code/datacollection/fsq_download.py:32-33 | Each shard is appended unchanged, and the combined table has shard 0's columns. |
| FsqDownload.Replace | code/datacollection/fsq_download.py:74 | `str.replace`: every occurrence, scanning from the left without overlaps, is replaced. Its properties: `ReplaceAbsent`, `NoCsvLeft`, `CsvSuffixRewritten`. |
| FsqDownload.ParquetOutputPath | code/datacollection/fsq_download.py:74 | `raw_data_path.replace(".csv", ".zstd.parquet")`. Its properties: `RawParquetPath`. |
| FsqDownload.ReplaceAbsent | code/datacollection/fsq_download.py:74 | A path without `.csv` is unchanged. |
| FsqDownload.NoCsvLeft | code/datacollection/fsq_download.py:74 | No `.csv` is left after the rewrite. |
| FsqDownload.CsvSuffixRewritten | code/datacollection/fsq_download.py:74 | A dot-free name ending in `.csv` ends in `.zstd.parquet` instead. |
| FsqDownload.RawParquetPath | code/datacollection/fsq_download.py:68-74 | `data/raw_data.csv` becomes `data/raw_data.zstd.parquet`. |
| FsqDownload.RunScript | code/datacollection/fsq_download.py:66-75 | The main block does what `Run` says: initialize, rebuild or load, then write the Parquet copy to the rewritten path. |
| FsqDownload.Run | code/datacollection/fsq_download.py:66-75 | The main block on a disk: `initialize`, rebuild or load, then the Parquet write to the rewritten path. Its properties: `FreshMachineNeverDownloads`. |

## Left out

- The pandas and pyarrow codecs are abstract functions in `Pipeline.Codec`, one per kind of read. No CSV round trip is claimed, since `dtype=str` changes types.
- `pandas.concat` column alignment is not modelled. Shards whose column lists differ end the rebuild with the error `SchemaMismatch`. pandas itself would align the columns.
- `os.system` is a logged command only: its exit status and its effect on the disk are outside the model.
- Why `os.makedirs` may fail at the operating-system level is an oracle, `mayCreate`. Only a path or ancestor that is a file is modelled as a cause.
- `print` and `head()` have no effect in the model.
- The model has no path normalisation: paths are compared as strings.
- Directories.MakeAllOutcome: bounds the created directories from above by the seven paths and their ancestors, and does not give the exact set.
- A file system whose directories lack their parent directories is allowed, and no invariant rules it out.
- A `Disk` path may be both a file and a directory, and no invariant rules that out either. A `read_csv` of a directory gives `NoSuchFile`, where Python raises `IsADirectoryError`.
- Os.FileSystem.ReadParquet: a directory at the path reads as `NoSuchFile`, where `pyarrow.parquet.read_table` would read the directory as a Parquet dataset.

## Findings

| source | as written | input that shows it | evidently intended | confidence | as-written member | corrected member |
|---|---|---|---|---|---|---|
| code/datacollection/fsq_download.py:42 | The download is skipped when `data/downloaded/places` exists. `initialize` calls `make_directories` first, and that creates this directory at line 53. | A machine with no files or directories, where every `makedirs` succeeds. `initialize` issues no `aws` command, and `get_raw_data_df` then fails with NoSuchFile on `places-00000.zstd.parquet`. | Skip only when the data are present, as the check on the first shard file at `foursquare.py:41` does. | not executed | FsqDownload.FreshMachineNeverDownloads | FsqDownload.FixedInitDownloadsIffShardMissing |
