/**
 Replacing a generated tree through a staging directory and renames. Any step may fail with an
 ordinary exception, be interrupted (an exception outside `Exception`, which only `finally` sees),
 or be the last one before the process stops.
 */
module TreeSwap {
  import opened Options

  type Tree = map<string, string>

  /** An ordinary failure has no effect; an interrupt may arrive just before or just after the step's effect. */
  datatype Fault = Fine | Error | Interrupt(effect: bool) | Halt

  /** How removing the staging directory goes; when it breaks off, the backup may or may not still be whole. */
  datatype Cleanup = Removes | BreaksOff(backupWhole: bool) | StopsBefore

  datatype End = Normal | Raised | Interrupted | Halted

  /** What the environment does to one replacement: a fault at some written file, at each rename, at the cleanup. */
  datatype Faults = Faults(writeAt: nat, write: Fault, backup: Fault, install: Fault, restore: Fault, cleanup: Cleanup)

  function TreeOf(files: seq<(string, string)>): Tree {
    if files == [] then map[]
    else TreeOf(files[..|files| - 1])[files[|files| - 1].0 := files[|files| - 1].1]
  }

  predicate Happens(f: Fault) {
    f == Fine || f == Interrupt(true)
  }

  function EndOf(f: Fault): End {
    match f
    case Fine => Normal
    case Error => Raised
    case Interrupt(_) => Interrupted
    case Halt => Halted
  }

  /** The faults of a run in which nothing interrupts it; stopping and failing are allowed anywhere. */
  predicate NoInterrupt(f: Faults) {
    !f.write.Interrupt? && !f.backup.Interrupt? && !f.install.Interrupt? && !f.restore.Interrupt?
  }

  /** An interrupt arrives while the target is missing: between the two renames, or before the restoring one. */
  predicate InterruptedInGap(f: Faults, files: nat) {
    && (f.writeAt >= files || f.write == Fine)
    && (|| f.backup == Interrupt(true)
        || (f.backup == Fine && f.install == Interrupt(false))
        || (f.backup == Fine && f.install == Error && f.restore == Interrupt(false)))
  }

  /** The process stops at one of the renames that this run gets to. */
  predicate HaltsInSwap(f: Faults, existed: bool) {
    if existed
    then f.backup == Halt || (f.backup == Fine && (f.install == Halt || (f.install == Error && f.restore == Halt)))
    else f.install == Halt
  }

  /** An ordinary failure of the second rename that the restoring rename puts right. */
  predicate RestoredAfterFailure(f: Faults, files: nat) {
    (f.writeAt >= files || f.write == Fine) && f.backup == Fine && f.install == Error && f.restore == Fine
  }

  predicate BackupRemoved(c: Cleanup) {
    c == Removes || c == BreaksOff(false)
  }

  class GraphTarget {
    var target: Option<Tree>
    var staged: Option<Tree>
    var previous: Option<Tree>

    constructor (current: Option<Tree>)
      ensures target == current && staged == None && previous == None
    {
      target, staged, previous := current, None, None;
    }

    /** A complete tree is at the target, or the old one is in the backup. */
    ghost predicate Safe(former: Option<Tree>, replacement: Tree)
      reads this
    {
      target == former || previous == former || target == Some(replacement)
    }

    /** Write the new tree file by file into the staging directory. */
    method WriteStaged(files: seq<(string, string)>, f: Faults) returns (end: End)
      modifies this`staged
      ensures end == if f.writeAt < |files| then EndOf(f.write) else Normal
      ensures end == Normal ==> staged == Some(TreeOf(files))
    {
      staged := Some(map[]);
      var tree: Tree := map[];
      for i := 0 to |files|
        invariant tree == TreeOf(files[..i]) && staged == Some(tree)
        invariant i > f.writeAt ==> f.write == Fine
      {
        if i == f.writeAt && f.write != Fine {
          return EndOf(f.write);
        }
        assert files[..i + 1][..i] == files[..i];
        tree := tree[files[i].0 := files[i].1];
        staged := Some(tree);
      }
      assert files[..|files|] == files;
      end := Normal;
    }

    /** The two renames and, after an ordinary failure of the second, the restoring one. */
    method Swap(f: Faults) returns (end: End, keepStaging: bool)
      requires staged.Some? && previous == None
      modifies this
      ensures f.backup == Error || f.backup == Interrupt(false) || f.backup == Halt ==>
                old(target.Some?) ==> target == old(target) && end == EndOf(f.backup)
      ensures end == Normal ==> target == old(staged)
      ensures target == old(target) || previous == old(target)
      ensures target == old(target) || target == old(staged) || target == None
      ensures old(target.Some?) && target == None <==>
                old(target.Some?) && (f.backup == Interrupt(true) || (f.backup == Fine && !Happens(f.install)
                                      && !(f.install == Error && Happens(f.restore))))
      ensures keepStaging <==>
                (f.backup == Fine || old(target.None?)) && f.install == Error && old(target.Some?) && f.restore == Error
      ensures old(target.Some?) && f.backup == Fine && f.install == Error && f.restore == Fine ==>
                target == old(target) && end == Raised
      ensures end == Halted <==> HaltsInSwap(f, old(target.Some?))
    {
      keepStaging := false;
      if target.Some? {
        if Happens(f.backup) {
          target, previous := None, target;
        }
        if f.backup != Fine {
          return EndOf(f.backup), keepStaging;
        }
      }
      if Happens(f.install) {
        target, staged := staged, None;
      }
      if f.install != Error {
        return EndOf(f.install), keepStaging;
      }
      if previous.Some? && target.None? {
        if Happens(f.restore) {
          target, previous := previous, None;
        }
        if f.restore == Error {
          keepStaging := true;
        } else if f.restore != Fine {
          return EndOf(f.restore), keepStaging;
        }
      }
      end := Raised;
    }

    /** `finally`: the staging directory goes, with the backup in it, unless a failed restore kept it. */
    method CleanUp(keepStaging: bool, c: Cleanup)
      modifies this`staged, this`previous
      ensures previous == if keepStaging || !BackupRemoved(c) then old(previous) else None
    {
      if !keepStaging {
        match c
        case Removes => staged, previous := None, None;
        case BreaksOff(whole) =>
          staged := None;
          previous := if whole then previous else None;
        case StopsBefore =>
      }
    }

    /**
     MAIN: the whole replacement. Without an interrupt an old tree is never lost, wherever a step
     fails or the process stops; with one it is lost exactly when the interrupt arrives while the
     target is missing and the cleanup then removes the backup.
     */
    method Replace(files: seq<(string, string)>, f: Faults) returns (end: End)
      requires previous == None
      modifies this
      ensures NoInterrupt(f) ==> Safe(old(target), TreeOf(files))
      ensures old(target.Some?) ==>
                (!Safe(old(target), TreeOf(files)) <==> InterruptedInGap(f, |files|) && BackupRemoved(f.cleanup))
      ensures end == Normal ==> target == Some(TreeOf(files))
      ensures old(target.Some?) && RestoredAfterFailure(f, |files|) ==> target == old(target) && end == Raised
      ensures target == old(target) || target == Some(TreeOf(files)) || target == None
    {
      end := WriteStaged(files, f);
      var keepStaging := false;
      if end == Normal {
        end, keepStaging := Swap(f);
      }
      if end != Halted {
        CleanUp(keepStaging, f.cleanup);
      }
    }
  }
}
