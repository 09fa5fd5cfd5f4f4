/**
 The logs directory and its byte gauge.  Every section that holds the one directory
 lock is a method here: it touches files, settles the gauge from sizes measured
 before and after, and releases.
 */
module DirGauge {
  import opened Prelude

  /** Bytes of all regular files. */
  ghost function Total(files: map<string, Bytes>): nat {
    if files == map[] then 0 else
      var k :| k in files;
      |files[k]| + Total(files - {k})
  }

  function SizeOf(files: map<string, Bytes>, path: string): nat {
    if path in files then |files[path]| else 0
  }

  /** The total does not depend on the order the files are walked in. */
  lemma {:induction false} TotalTake(files: map<string, Bytes>, k: string)
    requires k in files
    ensures Total(files) == |files[k]| + Total(files - {k})
  {
    var c :| c in files && Total(files) == |files[c]| + Total(files - {c});
    if c != k {
      TotalTake(files - {c}, k);
      TotalTake(files - {k}, c);
      assert files - {c} - {k} == files - {k} - {c};
    }
  }

  /** Replacing or removing one file moves the total by that file's change alone. */
  lemma TotalChange(before: map<string, Bytes>, after: map<string, Bytes>, path: string)
    requires before - {path} == after - {path}
    ensures Total(after) == Total(before) - SizeOf(before, path) + SizeOf(after, path)
  {
    if path in before {
      TotalTake(before, path);
    } else {
      assert before - {path} == before;
    }
    if path in after {
      TotalTake(after, path);
    } else {
      assert after - {path} == after;
    }
  }

  class LogsDir {
    var files: map<string, Bytes>

    constructor (files: map<string, Bytes>)
      ensures this.files == files
    {
      this.files := files;
    }
  }

  class LogsDirGauge {
    const dir: LogsDir
    const budget: nat          // 0 disables admission control
    var value: int
    var calibrated: bool

    constructor (dir: LogsDir, budget: nat)
      ensures this.dir == dir && this.budget == budget && value == 0 && !calibrated && Valid()
    {
      this.dir, this.budget, value, calibrated := dir, budget, 0, false;
    }

    /** At every release of the lock, from the first calibration on. */
    ghost predicate Valid()
      reads this, dir
    {
      value >= 0 && (calibrated ==> value == Total(dir.files))
    }

    /** Applies a measured delta; the clamp at zero is the source's. */
    method Add(delta: int)
      modifies this`value
      ensures value == if old(value) + delta >= 0 then old(value) + delta else 0
    {
      value := if value + delta >= 0 then value + delta else 0;
    }

    /** Resets the gauge from a walk over the whole directory, under the lock. */
    method Calibrate()
      modifies this`value, this`calibrated
      ensures Valid() && calibrated && value == Total(dir.files)
    {
      var todo := dir.files;
      var total := 0;
      while todo != map[]
        invariant forall p | p in todo :: p in dir.files && todo[p] == dir.files[p]
        invariant total >= 0 && total + Total(todo) == Total(dir.files)
        decreases todo.Keys
      {
        var p :| p in todo;
        TotalTake(todo, p);
        total := total + |todo[p]|;
        todo := todo - {p};
      }
      value, calibrated := total, true;
    }

    /**
     Appends to one file and settles.  A failing write may leave any prefix behind:
     the gauge learns what physically landed, and the error goes on to the caller.
     */
    method Append(path: string, data: Bytes) returns (before: nat, after: nat, ok: bool)
      requires Valid()
      modifies this`value, dir
      ensures Valid() && calibrated == old(calibrated)
      ensures before == SizeOf(old(dir.files), path) && after == SizeOf(dir.files, path)
      ensures dir.files - {path} == old(dir.files) - {path}
      ensures exists n: nat | n <= |data| :: Landed(old(dir.files), dir.files, path, data[..n])
      ensures ok ==> Landed(old(dir.files), dir.files, path, data)
      // With a calibrated gauge the clamp does not fire.
      ensures old(calibrated) ==> value == old(value) + (after - before)
      ensures value <= old(value) + |data|
    {
      before := SizeOf(dir.files, path);
      ghost var start := dir.files;
      ok := *;
      var n: nat := |data|;
      if !ok {
        n :| 0 <= n <= |data|;
      }
      if n > 0 {
        var body := if path in dir.files then dir.files[path] else [];
        dir.files := dir.files[path := body + data[..n]];
      }
      assert data[..|data|] == data;
      assert Landed(start, dir.files, path, data[..n]);
      after := SizeOf(dir.files, path);
      TotalChange(start, dir.files, path);
      Add(after - before);
    }

    /** Unlinks one file and settles; a refused or missing unlink changes nothing. */
    method Remove(path: string, refused: bool) returns (removed: bool)
      requires Valid()
      modifies this`value, dir
      ensures Valid() && calibrated == old(calibrated)
      ensures removed == (!refused && path in old(dir.files))
      ensures dir.files == if refused then old(dir.files) else old(dir.files) - {path}
      ensures old(calibrated) ==> value == old(value) - (if removed then |old(dir.files)[path]| else 0)
    {
      ghost var start := dir.files;
      var before := SizeOf(dir.files, path);
      removed := !refused && path in dir.files;
      if removed {
        dir.files := dir.files - {path};
      }
      assert path !in start ==> start - {path} == start;
      TotalChange(start, dir.files, path);
      if removed {
        TotalTake(start, path);
      }
      Add(SizeOf(dir.files, path) - before);
    }

    /**
     The maintenance cut of a sealed file: anything above `cap` that is not already
     `cap` bytes plus one marker becomes that.  It may be the only section that grows
     the directory past its budget.
     */
    method Truncate(path: string, cap: nat, marker: Bytes) returns (before: nat, after: nat)
      requires Valid()
      modifies this`value, dir
      ensures Valid() && calibrated == old(calibrated)
      ensures before == SizeOf(old(dir.files), path) && after == SizeOf(dir.files, path)
      ensures dir.files - {path} == old(dir.files) - {path}
      ensures old(calibrated) ==> value == old(value) + (after - before)
      ensures before <= cap ==> dir.files == old(dir.files)
      ensures dir.files == old(dir.files) || (path in old(dir.files) && path in dir.files
        && dir.files[path] == old(dir.files)[path][..cap] + marker)
      ensures before > cap && !AlreadyCapped(old(dir.files)[path], cap) ==>
        path in dir.files && |dir.files[path]| == cap + |marker|
    {
      before := SizeOf(dir.files, path);
      after := before;
      if before <= cap || AlreadyCapped(dir.files[path], cap) {
        return;
      }
      ghost var start := dir.files;
      dir.files := dir.files[path := dir.files[path][..cap] + marker];
      after := SizeOf(dir.files, path);
      TotalChange(start, dir.files, path);
      TotalTake(start, path);
      Add(-(before - after));
    }

    /**
     Any interleaving of the locked sections, each with any outcome: at every release
     after the first calibration the gauge is the true total.
     */
    method Interleave(steps: seq<Step>)
      requires Valid()
      modifies this, dir
      ensures Valid() && (old(calibrated) || Calibration in steps ==> calibrated && value == Total(dir.files))
    {
      for i := 0 to |steps|
        invariant Valid() && (old(calibrated) || Calibration in steps[..i] ==> calibrated)
      {
        match steps[i] {
          case Appending(path, data) =>
            var _, _, _ := Append(path, data);
          case Removing(path, refused) =>
            var _ := Remove(path, refused);
          case Cutting(path, cap, marker) =>
            var _, _ := Truncate(path, cap, marker);
          case Calibration =>
            Calibrate();
        }
      }
      assert steps[..|steps|] == steps;
    }
  }

  datatype Step = Appending(path: string, data: Bytes) | Removing(path: string, refused: bool)
                | Cutting(path: string, cap: nat, marker: Bytes) | Calibration

  /** `data` sits at the end of the file, and nothing else changed. */
  ghost predicate Landed(before: map<string, Bytes>, after: map<string, Bytes>, path: string, data: Bytes) {
    var body := if path in before then before[path] else [];
    if data == [] then after == before else after == before[path := body + data]
  }

  const MAX_MARKER_LEN := 160

  /** Exactly `cap` bytes followed by one dopilot truncation marker. */
  predicate AlreadyCapped(body: Bytes, cap: nat) {
    && |body| > cap
    && |body| - cap <= MAX_MARKER_LEN
    && IsCapMarker(body[cap..])
  }

  /** `\n[dopilot:log-truncated ...]\n` or `\n[dopilot:job-log-truncated ...]\n`, one line. */
  predicate IsCapMarker(m: Bytes) {
    || Framed(m, Ascii("\n[dopilot:log-truncated "))
    || Framed(m, Ascii("\n[dopilot:job-log-truncated "))
  }

  predicate Framed(m: Bytes, head: Bytes) {
    && |m| >= |head| + 2
    && m[..|head|] == head
    && m[|m|-2..] == Ascii("]\n")
    && forall i | |head| <= i < |m| - 2 :: m[i] != 10 && m[i] != 93
  }
}
