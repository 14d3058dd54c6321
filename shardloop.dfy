/** The shape of the shard loop in get_raw_data_df, independent of what one
    turn does: turns 0 .. n-1 run in ascending order on the disk the
    previous turn left, each successful turn appends its table, and the
    first failure ends the loop. A turn is described only through what it
    may touch: it reads its source file src(i), writes nothing but its
    output file out(i), creates no directory, and records the calls
    trail(e, i). */
module ShardLoop {
  import opened Errors
  import opened Tables
  import opened Paths
  import opened Os

  /** One turn: the shard index and the disk it starts from. */
  type Step = (Disk, nat) -> After<Table>
  /** The calls one turn makes, read off the disk it starts from. */
  type Trail = (Disk, nat) -> seq<Event>

  function Fold(d: Disk, step: Step, n: nat): (a: After<seq<Table>>)
    ensures a.result.Ok? ==> |a.result.value| == n
  {
    if n == 0 then After(d, Ok([]))
    else
      var prev := Fold(d, step, n - 1);
      if prev.result.Err? then prev
      else
        var s := step(prev.disk, n - 1);
        if s.result.Err? then After(s.disk, Err(s.result.error))
        else After(s.disk, Ok(prev.result.value + [s.result.value]))
  }

  /** The calls of turns 0 .. n-1, each read off the starting disk d. */
  function Calls(d: Disk, trail: Trail, n: nat): seq<Event> {
    if n == 0 then [] else Calls(d, trail, n - 1) + trail(d, n - 1)
  }

  ghost predicate Logs(step: Step, trail: Trail) {
    forall e: Disk, i: nat {:trigger step(e, i)} :: step(e, i).disk.trace == e.trace + trail(e, i)
  }

  ghost predicate Confined(step: Step, out: nat -> Path) {
    forall e: Disk, i: nat :: step(e, i).disk.dirs == e.dirs &&
      forall p :: p != out(i) ==> Agree(step(e, i).disk.files, e.files, p)
  }

  /** Turn i cannot tell disk e1 from disk e2: same directories, and the
      same contents at its source and output files. */
  ghost predicate Alike(e1: Disk, e2: Disk, src: nat -> Path, out: nat -> Path, i: nat) {
    e1.dirs == e2.dirs && Agree(e1.files, e2.files, src(i)) && Agree(e1.files, e2.files, out(i))
  }

  /** A turn's result and output file depend on what it can tell apart only. */
  ghost predicate Local(step: Step, src: nat -> Path, out: nat -> Path) {
    forall e1: Disk, e2: Disk, i: nat {:trigger step(e1, i), step(e2, i)} ::
      Alike(e1, e2, src, out, i) ==>
        step(e1, i).result == step(e2, i).result &&
        Agree(step(e1, i).disk.files, step(e2, i).disk.files, out(i))
  }

  /** So do the calls it makes. */
  ghost predicate LocalTrail(trail: Trail, src: nat -> Path, out: nat -> Path) {
    forall e1: Disk, e2: Disk, i: nat {:trigger trail(e1, i), trail(e2, i)} ::
      Alike(e1, e2, src, out, i) ==> trail(e1, i) == trail(e2, i)
  }

  /** Output files are distinct, and no output file is a source file. */
  ghost predicate Separate(src: nat -> Path, out: nat -> Path) {
    (forall i: nat, j: nat :: out(i) == out(j) ==> i == j) &&
    (forall i: nat, j: nat :: src(i) != out(j))
  }

  ghost predicate Untouched(out: nat -> Path, n: nat, p: Path) {
    forall j: nat :: j < n ==> p != out(j)
  }

  /** After the first failure the loop has stopped: later turns change nothing. */
  lemma {:induction false} FoldStop(d: Disk, step: Step, k: nat, n: nat)
    requires k <= n && Fold(d, step, k).result.Err?
    ensures Fold(d, step, n) == Fold(d, step, k)
  {
    if k < n {
      FoldStop(d, step, k, n - 1);
    }
  }

  /** The loop creates no directory and changes no file but the outputs. */
  lemma {:induction false} FoldFrame(d: Disk, step: Step, out: nat -> Path, n: nat)
    requires Confined(step, out)
    ensures Fold(d, step, n).disk.dirs == d.dirs
    ensures forall p :: Untouched(out, n, p) ==> Agree(Fold(d, step, n).disk.files, d.files, p)
  {
    if n > 0 {
      FoldFrame(d, step, out, n - 1);
      var prev := Fold(d, step, n - 1);
      if prev.result.Ok? {
        var e := prev.disk;
        assert Fold(d, step, n).disk == step(e, n - 1).disk;
        forall p | Untouched(out, n, p)
          ensures Agree(Fold(d, step, n).disk.files, d.files, p)
        {
          assert p != out(n - 1);
          assert Agree(step(e, n - 1).disk.files, e.files, p);
          assert Untouched(out, n - 1, p);
        }
      }
    }
  }

  /** Turn i cannot tell the disk the earlier turns left from the starting
      disk: they touch neither its source nor its output file. */
  lemma FoldFromStart(d: Disk, step: Step, src: nat -> Path, out: nat -> Path, i: nat)
    requires Confined(step, out) && Separate(src, out)
    ensures Alike(Fold(d, step, i).disk, d, src, out, i)
  {
    FoldFrame(d, step, out, i);
    assert Untouched(out, i, src(i));
    assert Untouched(out, i, out(i));
  }

  /** The loop succeeds exactly when every turn would succeed on the
      starting disk, and then holds those turns' tables in index order. */
  lemma {:induction false} FoldTables(d: Disk, step: Step, src: nat -> Path, out: nat -> Path, n: nat)
    requires Confined(step, out) && Local(step, src, out) && Separate(src, out)
    ensures var a := Fold(d, step, n);
            && (a.result.Ok? <==> forall i :: 0 <= i < n ==> step(d, i).result.Ok?)
            && (a.result.Ok? ==> forall i :: 0 <= i < n ==> a.result.value[i] == step(d, i).result.value)
  {
    if n > 0 {
      var i := n - 1;
      FoldTables(d, step, src, out, i);
      FoldFromStart(d, step, src, out, i);
      var prev := Fold(d, step, i);
      var a := Fold(d, step, n);
      var s := step(prev.disk, i);
      assert s.result == step(d, i).result;
      if prev.result.Err? {
        assert a == prev;
        assert !(forall j :: 0 <= j < i ==> step(d, j).result.Ok?);
      } else if s.result.Err? {
        assert a.result.Err?;
        assert !step(d, i).result.Ok?;
      } else {
        var ts := prev.result.value;
        assert a.result.value == ts + [s.result.value];
        forall j | 0 <= j < n
          ensures step(d, j).result.Ok? && a.result.value[j] == step(d, j).result.value
        {
          if j < i {
            assert a.result.value[j] == ts[j];
          }
        }
      }
    }
  }

  lemma TraceTurn(d: Disk, step: Step, trail: Trail, n: nat)
    requires Logs(step, trail) && n > 0 && Fold(d, step, n).result.Ok?
    requires Fold(d, step, n - 1).disk.trace == d.trace + Calls(d, trail, n - 1)
    requires trail(Fold(d, step, n - 1).disk, n - 1) == trail(d, n - 1)
    ensures Fold(d, step, n).disk.trace == d.trace + Calls(d, trail, n)
  {
    var e := Fold(d, step, n - 1).disk;
    assert Fold(d, step, n).disk.trace == e.trace + trail(e, n - 1);
  }

  /** A successful loop made the turns' calls in index order. */
  lemma {:induction false} FoldTrace(d: Disk, step: Step, trail: Trail, src: nat -> Path, out: nat -> Path, n: nat)
    requires Confined(step, out) && LocalTrail(trail, src, out) && Separate(src, out) && Logs(step, trail)
    requires Fold(d, step, n).result.Ok?
    ensures Fold(d, step, n).disk.trace == d.trace + Calls(d, trail, n)
  {
    if n > 0 {
      assert Fold(d, step, n - 1).result.Ok?;
      FoldTrace(d, step, trail, src, out, n - 1);
      FoldFromStart(d, step, src, out, n - 1);
      TraceTurn(d, step, trail, n);
    }
  }

  /** After a successful loop each output file holds what its turn, run on
      the starting disk, would have left there. */
  lemma {:induction false} FoldOutputs(d: Disk, step: Step, src: nat -> Path, out: nat -> Path, n: nat)
    requires Confined(step, out) && Local(step, src, out) && Separate(src, out)
    requires Fold(d, step, n).result.Ok?
    ensures forall i :: 0 <= i < n ==> Agree(Fold(d, step, n).disk.files, step(d, i).disk.files, out(i))
  {
    if n > 0 {
      var k := n - 1;
      var e := Fold(d, step, k).disk;
      var f := Fold(d, step, n).disk.files;
      FoldOutputs(d, step, src, out, k);
      FoldFromStart(d, step, src, out, k);
      assert f == step(e, k).disk.files;
      forall i | 0 <= i < n
        ensures Agree(f, step(d, i).disk.files, out(i))
      {
        if i < k {
          assert out(i) != out(k);
          assert Agree(f, e.files, out(i));
        }
      }
    }
  }
}
