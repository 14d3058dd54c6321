/** The working directory the scripts run in, as a value (Disk) and as the
    mutable object the scripts act on (FileSystem). File contents are the
    tables they were written from; how a file is read back is up to the
    decoder the calling site passes in, so no round trip is assumed. Every
    call is recorded in a trace, including the ones that fail. */
module Os {
  import opened Errors
  import opened Tables
  import opened Paths

  datatype Event =
    | CsvRead(path: Path)                       // pandas.read_csv
    | ParquetRead(path: Path)                   // pyarrow.parquet.read_table
    | CsvWritten(path: Path, table: Table)      // DataFrame.to_csv
    | ParquetWritten(path: Path, table: Table)  // pyarrow.parquet.write_table
    | DirsMade(path: Path)                      // os.makedirs(path, exist_ok=True)
    | CommandRun(command: string)               // os.system

  datatype Disk = Disk(files: map<Path, Table>, dirs: set<Path>, trace: seq<Event>)

  /** The disk after a call, and what the call returned or raised. */
  datatype After<T> = After(disk: Disk, result: Result<T>)

  /** os.path.exists: a file or a directory. */
  predicate PathExists(d: Disk, p: Path) {
    p in d.files || p in d.dirs
  }

  /** The two file maps say the same about path p. */
  predicate Agree(f: map<Path, Table>, g: map<Path, Table>, p: Path) {
    (p in f <==> p in g) && (p in f ==> f[p] == g[p])
  }

  function Log(d: Disk, e: Event): Disk {
    d.(trace := d.trace + [e])
  }

  /** Reading path p: the decoded table when p is a file, NoSuchFile otherwise. */
  function ReadStep(d: Disk, p: Path, decode: Table -> Table, e: Event): After<Table> {
    if p in d.files then After(Log(d, e), Ok(decode(d.files[p])))
    else After(Log(d, e), Err(NoSuchFile(p)))
  }

  /** Writing table t at path p, whose directory is dir: refused on a
      directory or when dir is missing; otherwise p now holds t. */
  function WriteInto(d: Disk, dir: Path, p: Path, t: Table, e: Event): After<()> {
    if p in d.dirs then After(Log(d, e), Err(IsADirectory(p)))
    else if dir != "" && dir !in d.dirs then After(Log(d, e), Err(NoSuchDirectory(dir)))
    else After(Log(d, e).(files := d.files[p := t]), Ok(()))
  }

  function WriteStep(d: Disk, p: Path, t: Table, e: Event): After<()> {
    WriteInto(d, Parent(p), p, t, e)
  }

  /** Whether os.makedirs(p, exist_ok=True) returns normally: p is already a
      directory, or neither p nor any ancestor is a file and the operating
      system lets it be created (the oracle mayCreate). */
  predicate Accepts(dirs: set<Path>, files: map<Path, Table>, mayCreate: Path -> bool, p: Path) {
    p in dirs || (p !in files && Ancestors(p) !! files.Keys && mayCreate(p))
  }

  /** os.makedirs(p, exist_ok=True): creates p and its missing ancestors. */
  function MakeDirsStep(d: Disk, p: Path, mayCreate: Path -> bool): (Disk, bool) {
    if p in d.dirs then (Log(d, DirsMade(p)), true)
    else if Accepts(d.dirs, d.files, mayCreate, p) then
      (Log(d, DirsMade(p)).(dirs := d.dirs + Ancestors(p) + {p}), true)
    else (Log(d, DirsMade(p)), false)
  }

  /** os.system(command): its effect on the disk is outside the model and
      its exit status is ignored. */
  function SystemStep(d: Disk, command: string): Disk {
    Log(d, CommandRun(command))
  }

  class FileSystem {
    var files: map<Path, Table>
    var dirs: set<Path>
    var trace: seq<Event>

    function State(): Disk
      reads this
    {
      Disk(files, dirs, trace)
    }

    constructor (d: Disk)
      ensures State() == d
    {
      files, dirs, trace := d.files, d.dirs, d.trace;
    }

    method Exists(p: Path) returns (b: bool)
      ensures b == PathExists(State(), p)
    {
      b := p in files || p in dirs;
    }

    method ReadCsv(p: Path, decode: Table -> Table) returns (r: Result<Table>)
      modifies this
      ensures After(State(), r) == ReadStep(old(State()), p, decode, CsvRead(p))
    {
      trace := trace + [CsvRead(p)];
      r := if p in files then Ok(decode(files[p])) else Err(NoSuchFile(p));
    }

    method ReadParquet(p: Path, decode: Table -> Table) returns (r: Result<Table>)
      modifies this
      ensures After(State(), r) == ReadStep(old(State()), p, decode, ParquetRead(p))
    {
      trace := trace + [ParquetRead(p)];
      r := if p in files then Ok(decode(files[p])) else Err(NoSuchFile(p));
    }

    method WriteCsv(p: Path, t: Table) returns (r: Result<()>)
      modifies this
      ensures After(State(), r) == WriteStep(old(State()), p, t, CsvWritten(p, t))
    {
      r := Write(p, t, CsvWritten(p, t));
    }

    method WriteParquet(p: Path, t: Table) returns (r: Result<()>)
      modifies this
      ensures After(State(), r) == WriteStep(old(State()), p, t, ParquetWritten(p, t))
    {
      r := Write(p, t, ParquetWritten(p, t));
    }

    method Write(p: Path, t: Table, e: Event) returns (r: Result<()>)
      modifies this
      ensures After(State(), r) == WriteStep(old(State()), p, t, e)
    {
      trace := trace + [e];
      if p in dirs {
        r := Err(IsADirectory(p));
      } else if Parent(p) != "" && Parent(p) !in dirs {
        r := Err(NoSuchDirectory(Parent(p)));
      } else {
        files := files[p := t];
        r := Ok(());
      }
    }

    method MakeDirs(p: Path, mayCreate: Path -> bool) returns (ok: bool)
      modifies this
      ensures (State(), ok) == MakeDirsStep(old(State()), p, mayCreate)
    {
      trace := trace + [DirsMade(p)];
      if p in dirs {
        ok := true;
      } else if p !in files && Ancestors(p) !! files.Keys && mayCreate(p) {
        dirs := dirs + Ancestors(p) + {p};
        ok := true;
      } else {
        ok := false;
      }
    }

    method System(command: string)
      modifies this
      ensures State() == SystemStep(old(State()), command)
    {
      trace := trace + [CommandRun(command)];
    }
  }
}
