/** make_directories, identical in both scripts: seven os.makedirs calls
    with exist_ok=True inside one try block; the first call that raises
    ends the block and the function returns False, otherwise True. */
module Directories {
  import opened Paths
  import opened Os

  /** The directories, parents first, in the order the scripts create them. */
  const DataDirs: seq<Path> := [
    "data",
    "data/downloaded",
    "data/downloaded/places",
    "data/downloaded/categories",
    "data/converted",
    "data/converted/places",
    "data/converted/categories"
  ]

  /** The calls in ps, in order: what the trace shows of them. */
  function Attempts(ps: seq<Path>): seq<Event> {
    if ps == [] then [] else [DirsMade(ps[0])] + Attempts(ps[1..])
  }

  /** What creating each of ps in turn adds: each path and its ancestors. */
  function Made(ps: seq<Path>): set<Path> {
    if ps == [] then {} else Ancestors(ps[0]) + {ps[0]} + Made(ps[1..])
  }

  /** What MakeAll(d, mayCreate, ps) == (e, ok) means, with k the number
      of calls that succeeded. */
  ghost predicate Outcome(d: Disk, mayCreate: Path -> bool, ps: seq<Path>, e: Disk, ok: bool, k: int) {
    && 0 <= k <= |ps|
    && (ok <==> k == |ps|)
    && e.files == d.files
    && (forall j :: 0 <= j < k ==> ps[j] in e.dirs)
    && d.dirs <= e.dirs <= d.dirs + Made(ps[..k])
    && (ok ==> e.trace == d.trace + Attempts(ps))
    && (!ok ==> && e.trace == d.trace + Attempts(ps[..k + 1])
                && ps[k] !in e.dirs
                && (ps[k] in d.files || !(Ancestors(ps[k]) !! d.files.Keys) || !mayCreate(ps[k])))
  }

  /** The calls os.makedirs(p, exist_ok=True) for p in ps, stopping at the
      first one that raises; true when none did. */
  function MakeAll(d: Disk, mayCreate: Path -> bool, ps: seq<Path>): (Disk, bool)
    decreases |ps|
  {
    if ps == [] then (d, true)
    else
      var (d1, ok) := MakeDirsStep(d, ps[0], mayCreate);
      if !ok then (d1, false) else MakeAll(d1, mayCreate, ps[1..])
  }

  method MakeDirectories(fs: FileSystem, mayCreate: Path -> bool) returns (ok: bool)
    modifies fs
    ensures (fs.State(), ok) == MakeAll(old(fs.State()), mayCreate, DataDirs)
  {
    ghost var goal := MakeAll(fs.State(), mayCreate, DataDirs);
    ok := fs.MakeDirs("data", mayCreate);
    if !ok { return; }
    assert goal == MakeAll(fs.State(), mayCreate, DataDirs[1..]);
    ok := fs.MakeDirs("data/downloaded", mayCreate);
    if !ok { return; }
    assert goal == MakeAll(fs.State(), mayCreate, DataDirs[2..]);
    ok := fs.MakeDirs("data/downloaded/places", mayCreate);
    if !ok { return; }
    assert goal == MakeAll(fs.State(), mayCreate, DataDirs[3..]);
    ok := fs.MakeDirs("data/downloaded/categories", mayCreate);
    if !ok { return; }
    assert goal == MakeAll(fs.State(), mayCreate, DataDirs[4..]);
    ok := fs.MakeDirs("data/converted", mayCreate);
    if !ok { return; }
    assert goal == MakeAll(fs.State(), mayCreate, DataDirs[5..]);
    ok := fs.MakeDirs("data/converted/places", mayCreate);
    if !ok { return; }
    assert goal == MakeAll(fs.State(), mayCreate, DataDirs[6..]);
    ok := fs.MakeDirs("data/converted/categories", mayCreate);
    if !ok { return; }
    assert goal == MakeAll(fs.State(), mayCreate, DataDirs[7..]);
  }

  /** os.makedirs never touches a file, and only adds directories. */
  lemma {:induction false} MakeAllFrame(d: Disk, mayCreate: Path -> bool, ps: seq<Path>)
    ensures MakeAll(d, mayCreate, ps).0.files == d.files
    ensures d.dirs <= MakeAll(d, mayCreate, ps).0.dirs
    decreases |ps|
  {
    if ps != [] {
      MakeAllFrame(MakeDirsStep(d, ps[0], mayCreate).0, mayCreate, ps[1..]);
    }
  }

  /** q is a prefix of one of ps. */
  predicate Covered(ps: seq<Path>, q: Path) {
    exists i :: 0 <= i < |ps| && |q| <= |ps[i]| && ps[i][..|q|] == q
  }

  /** Every path a run over ps can make is a prefix of one of ps. */
  lemma {:induction false} MadeCovered(ps: seq<Path>)
    ensures forall q :: q in Made(ps) ==> Covered(ps, q)
    decreases |ps|
  {
    if ps != [] {
      AncestorsArePrefixes(ps[0]);
      MadeCovered(ps[1..]);
      forall q | q in Made(ps)
        ensures Covered(ps, q)
      {
        if q in Made(ps[1..]) {
          var i :| 0 <= i < |ps[1..]| && |q| <= |ps[1..][i]| && ps[1..][i][..|q|] == q;
          assert ps[i + 1] == ps[1..][i];
        } else {
          assert |q| <= |ps[0]| && ps[0][..|q|] == q;
        }
      }
    }
  }

  /** A path that is no prefix of any of ps is left as it was by a run over
      ps: it exists afterwards exactly when it existed before. */
  lemma UncoveredUntouched(d: Disk, mayCreate: Path -> bool, ps: seq<Path>, q: Path)
    requires !Covered(ps, q)
    ensures PathExists(MakeAll(d, mayCreate, ps).0, q) == PathExists(d, q)
  {
    MakeAllOutcome(d, mayCreate, ps);
    var e, ok := MakeAll(d, mayCreate, ps).0, MakeAll(d, mayCreate, ps).1;
    var k :| Outcome(d, mayCreate, ps, e, ok, k);
    MadeCovered(ps[..k]);
    assert q !in Made(ps[..k]);
  }

  /** The calls stop at the first failure: for some k, the first k calls
      succeeded and their paths are directories now; nothing was added but
      those paths and their ancestors; the result is true exactly when k is
      all of them, and otherwise call k, the last one made, was refused
      because the path or an ancestor is a file or the system did not
      allow it. */
  lemma {:induction false} MakeAllOutcome(d: Disk, mayCreate: Path -> bool, ps: seq<Path>)
    ensures exists k :: Outcome(d, mayCreate, ps, MakeAll(d, mayCreate, ps).0, MakeAll(d, mayCreate, ps).1, k)
    decreases |ps|
  {
    var e, ok := MakeAll(d, mayCreate, ps).0, MakeAll(d, mayCreate, ps).1;
    if ps == [] {
      assert d.trace + Attempts(ps) == d.trace;
      assert Outcome(d, mayCreate, ps, e, ok, 0);
    } else if MakeDirsStep(d, ps[0], mayCreate).1 {
      var d1 := MakeDirsStep(d, ps[0], mayCreate).0;
      assert MakeAll(d, mayCreate, ps) == MakeAll(d1, mayCreate, ps[1..]);
      MakeAllOutcome(d1, mayCreate, ps[1..]);
      MakeAllFrame(d1, mayCreate, ps[1..]);
      var k :| Outcome(d1, mayCreate, ps[1..], e, ok, k);
      OutcomeAfterAccepted(d, mayCreate, ps, e, ok, k);
    } else {
      OutcomeAfterRefused(d, mayCreate, ps);
      assert Outcome(d, mayCreate, ps, e, ok, 0);
    }
  }

  lemma OutcomeAfterRefused(d: Disk, mayCreate: Path -> bool, ps: seq<Path>)
    requires ps != [] && !MakeDirsStep(d, ps[0], mayCreate).1
    ensures Outcome(d, mayCreate, ps, MakeAll(d, mayCreate, ps).0, MakeAll(d, mayCreate, ps).1, 0)
  {
    assert ps[..1] == [ps[0]];
    assert Attempts(ps[..1]) == [DirsMade(ps[0])];
    assert Made(ps[..0]) == {};
  }

  lemma OutcomeAfterAccepted(d: Disk, mayCreate: Path -> bool, ps: seq<Path>, e: Disk, ok: bool, k: nat)
    requires ps != [] && MakeDirsStep(d, ps[0], mayCreate).1
    requires var d1 := MakeDirsStep(d, ps[0], mayCreate).0;
             Outcome(d1, mayCreate, ps[1..], e, ok, k) && d1.dirs <= e.dirs
    ensures Outcome(d, mayCreate, ps, e, ok, k + 1)
  {
    var p := ps[0];
    var d1 := MakeDirsStep(d, p, mayCreate).0;
    assert ps[..k + 1][1..] == ps[1..][..k];
    assert Made(ps[..k + 1]) == Ancestors(p) + {p} + Made(ps[1..][..k]);
    assert d1.dirs <= d.dirs + Ancestors(p) + {p};
    forall j | 0 <= j < k + 1
      ensures ps[j] in e.dirs
    {
      if j > 0 {
        assert ps[j] == ps[1..][j - 1];
      }
    }
    if ok {
      assert e.trace == d1.trace + Attempts(ps[1..]);
    } else {
      assert ps[..k + 2][1..] == ps[1..][..k + 1];
      assert ps[k + 1] == ps[1..][k];
      assert Attempts(ps[..k + 2]) == [DirsMade(p)] + Attempts(ps[1..][..k + 1]);
    }
  }

  /** Every call succeeds when each path already is a directory or may be
      created: neither it nor an ancestor is a file and the system allows it. */
  lemma {:induction false} MakeAllSucceeds(d: Disk, mayCreate: Path -> bool, ps: seq<Path>)
    requires forall i :: 0 <= i < |ps| ==> Accepts(d.dirs, d.files, mayCreate, ps[i])
    ensures MakeAll(d, mayCreate, ps).1
    decreases |ps|
  {
    if ps != [] {
      var d1 := MakeDirsStep(d, ps[0], mayCreate).0;
      assert d1.files == d.files && d.dirs <= d1.dirs;
      forall i | 0 <= i < |ps[1..]|
        ensures Accepts(d1.dirs, d1.files, mayCreate, ps[1..][i])
      {
        assert Accepts(d.dirs, d.files, mayCreate, ps[i + 1]);
      }
      MakeAllSucceeds(d1, mayCreate, ps[1..]);
    }
  }

  /** exist_ok: when every path already is a directory, every call
      succeeds, whatever the system would allow, and nothing but the trace
      changes. */
  lemma {:induction false} MakeAllExisting(d: Disk, mayCreate: Path -> bool, ps: seq<Path>)
    requires forall i :: 0 <= i < |ps| ==> ps[i] in d.dirs
    ensures MakeAll(d, mayCreate, ps) == (d.(trace := d.trace + Attempts(ps)), true)
    decreases |ps|
  {
    if ps != [] {
      var d1 := MakeDirsStep(d, ps[0], mayCreate).0;
      assert d1 == d.(trace := d.trace + [DirsMade(ps[0])]);
      MakeAllExisting(d1, mayCreate, ps[1..]);
      assert d.trace + [DirsMade(ps[0])] + Attempts(ps[1..]) == d.trace + Attempts(ps);
    } else {
      assert d.trace + Attempts(ps) == d.trace;
    }
  }

  /** Every path a successful run names is a directory afterwards. */
  lemma MakeAllCreates(d: Disk, mayCreate: Path -> bool, ps: seq<Path>)
    requires MakeAll(d, mayCreate, ps).1
    ensures forall i :: 0 <= i < |ps| ==> ps[i] in MakeAll(d, mayCreate, ps).0.dirs
  {
    MakeAllOutcome(d, mayCreate, ps);
  }

  /** exist_ok: once a run has succeeded, running it again on the disk it
      left succeeds, whatever the system would allow, and changes nothing
      but the trace. */
  lemma MakeAllAgain(d: Disk, mayCreate: Path -> bool, again: Path -> bool, ps: seq<Path>)
    requires MakeAll(d, mayCreate, ps).1
    ensures var e := MakeAll(d, mayCreate, ps).0;
            MakeAll(e, again, ps) == (e.(trace := e.trace + Attempts(ps)), true)
  {
    MakeAllCreates(d, mayCreate, ps);
    MakeAllExisting(MakeAll(d, mayCreate, ps).0, again, ps);
  }
}
