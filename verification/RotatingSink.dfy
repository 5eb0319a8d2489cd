/** The rotating file sink of include/spdlog/sinks/rotating_file_sink-inl.h, with the file system it works on. */
module RotatingSink {
  import opened RotatingNames
  import opened RotatingModel

  /** The file system as the sink sees it; an operation that fails changes nothing. */
  class Disk {
    var files: Files

    constructor (files: Files)
      ensures this.files == files
    {
      this.files := files;
    }

    method PathExists(name: string) returns (found: bool)
      ensures found <==> name in files
    {
      return name in files;
    }

    method Remove(name: string, works: bool)
      modifies this
      ensures files == if works then old(files) - {name} else old(files)
    {
      if works {
        files := files - {name};
      }
    }

    /** As on POSIX systems, an existing target is replaced. */
    method Rename(src: string, target: string, works: bool) returns (ok: bool)
      requires src in files && src != target
      modifies this
      ensures ok == works
      ensures files == if works then old(files)[target := old(files)[src]] - {src} else old(files)
    {
      if works {
        files := files[target := files[src]] - {src};
      }
      return works;
    }

    method Put(name: string, content: string)
      modifies this
      ensures files == old(files)[name := content]
    {
      files := files[name := content];
    }
  }

  class RotatingFileSink {
    const base: string
    const disk: Disk
    var maxSize: nat
    var maxFiles: nat
    var currentSize: nat
    var isOpen: bool

    ghost function View(): Sink
      reads this, disk
    {
      Sink(disk.files, maxSize, maxFiles, currentSize, isOpen)
    }

    /** The estimate itself is not part of Valid: a failing write may spoil it. */
    ghost predicate Valid()
      reads this, disk
    {
      isOpen ==> base in disk.files
    }

    /** The state after file_helper_.open and the first size query. */
    constructor (base: string, disk: Disk, maxSize: nat, maxFiles: nat)
      requires base in disk.files
      ensures Valid() && this.base == base && this.disk == disk
      ensures View() == Sink(disk.files, maxSize, maxFiles, |disk.files[base]|, true)
    {
      this.base, this.disk, this.maxSize, this.maxFiles := base, disk, maxSize, maxFiles;
      currentSize := |disk.files[base]|;
      isOpen := true;
    }

    /** The constructor of the source; null stands for an exception. Opening appends, creating the file if need be. */
    static method Open(base: string, disk: Disk, maxSize: nat, maxFiles: nat, rotateOnOpen: bool,
                       openOk: bool, env: RotateEnv)
      returns (sink: RotatingFileSink?)
      requires EnvOk(env)
      modifies disk
      ensures (sink == null) == OpenThrows(old(disk.files), base, maxSize, maxFiles, rotateOnOpen, openOk, env)
      ensures (sink == null) <==>
                || maxSize == 0 || maxFiles > 200000 || !openOk
                || (rotateOnOpen && base in old(disk.files) && old(disk.files)[base] != "" &&
                    (!env.openOk || FailingSlot(old(disk.files), base, maxFiles, env) > 0))
      ensures sink != null ==> fresh(sink) && sink.base == base && sink.disk == disk && sink.Valid()
      ensures sink != null ==> sink.View() == Opened(old(disk.files), base, maxSize, maxFiles, rotateOnOpen, env)
      ensures maxSize == 0 || maxFiles > MAX_FILES || !openOk ==> disk.files == old(disk.files)
      ensures sink == null && 0 < maxSize && maxFiles <= MAX_FILES && openOk ==>
                disk.files == RotatingModel.Rotate(Attached(old(disk.files), base, maxSize, maxFiles), base, env).0.files
    {
      if maxSize == 0 || maxFiles > MAX_FILES || !openOk {
        return null;
      }
      var found := disk.PathExists(base);
      if !found {
        disk.Put(base, "");
      }
      var s := new RotatingFileSink(base, disk, maxSize, maxFiles);
      if rotateOnOpen && s.currentSize > 0 {
        RotateThrowsIff(s.View(), base, env);
        var thrown := s.Rotate(env);
        if thrown {
          return null;
        }
        s.currentSize := 0;
      }
      return s;
    }

    /** rename_file_: the target is deleted first, whether or not that works. */
    method RenameFile(src: string, target: string, removeOk: bool, renameOk: bool) returns (ok: bool)
      requires src in disk.files && src != target
      modifies disk
      ensures ok == renameOk
      ensures disk.files == if renameOk then old(disk.files)[target := old(disk.files)[src]] - {src}
                            else if removeOk then old(disk.files) - {target} else old(disk.files)
    {
      disk.Remove(target, removeOk);
      ok := disk.Rename(src, target, renameOk);
    }

    method Reopen(env: RotateEnv)
      requires EnvOk(env)
      modifies this`isOpen, disk
      ensures Valid()
      ensures View() == RotatingModel.Reopen(old(View()), base, env)
    {
      if env.truncated {
        disk.Put(base, "");
      }
      isOpen := env.openOk;
    }

    /** The renaming of slot i - 1 to slot i, tried twice. */
    method MoveFile(i: nat, env: RotateEnv) returns (ok: bool)
      requires i >= 1 && CalcFilename(base, i - 1) in disk.files
      modifies disk
      ensures ok == !Breaks(env, i)
      ensures var src, target := CalcFilename(base, i - 1), CalcFilename(base, i);
              disk.files == if ok then old(disk.files)[target := old(disk.files)[src]] - {src}
                            else if i in env.stuck then old(disk.files) else old(disk.files) - {target}
    {
      var src, target := CalcFilename(base, i - 1), CalcFilename(base, i);
      if src == target { FilenamesDistinct(base, i - 1, i); }
      ok := RenameFile(src, target, i !in env.stuck, i !in env.firstFails);
      if !ok {
        // again after a short delay
        ok := RenameFile(src, target, i !in env.stuck, i !in env.secondFails);
      }
    }

    method Rotate(env: RotateEnv) returns (thrown: bool)
      requires EnvOk(env)
      modifies this`isOpen, this`currentSize, disk
      ensures Valid()
      ensures (View(), thrown) == RotatingModel.Rotate(old(View()), base, env)
    {
      ghost var before := disk.files;
      isOpen := false;
      var i: nat := maxFiles;
      while i > 0
        invariant i <= maxFiles && currentSize == old(currentSize)
        invariant RotateFrom(before, base, maxFiles, env) == RotateFrom(disk.files, base, i, env)
      {
        var found := disk.PathExists(CalcFilename(base, i - 1));
        if found {
          var ok := MoveFile(i, env);
          if !ok {
            // truncate the log file anyway
            Reopen(env);
            if env.openOk {
              currentSize := 0;
            }
            return true;
          }
        }
        i := i - 1;
      }
      Reopen(env);
      return !env.openOk;
    }

    method RotateNow(env: RotateEnv) returns (thrown: bool)
      requires Valid() && EnvOk(env)
      modifies this`isOpen, this`currentSize, disk
      ensures Valid()
      ensures (View(), thrown) == Apply(old(View()), base, Op.RotateNow(env))
      ensures (View(), thrown) == RotatingModel.Rotate(old(View()), base, env)
    {
      thrown := Rotate(env);
    }

    method SetMaxSize(m: nat) returns (thrown: bool)
      requires Valid()
      modifies `maxSize
      ensures Valid()
      ensures (View(), thrown) == Apply(old(View()), base, Op.SetMaxSize(m))
      ensures thrown <==> m == 0
      ensures View() == old(View()).(maxSize := if m == 0 then old(maxSize) else m)
    {
      if m == 0 {
        return true;
      }
      maxSize := m;
      return false;
    }

    method SetMaxFiles(m: nat) returns (thrown: bool)
      requires Valid()
      modifies `maxFiles
      ensures Valid()
      ensures (View(), thrown) == Apply(old(View()), base, Op.SetMaxFiles(m))
      ensures thrown <==> m > 200000
      ensures View() == old(View()).(maxFiles := if m > 200000 then old(maxFiles) else m)
    {
      if m > MAX_FILES {
        return true;
      }
      maxFiles := m;
      return false;
    }

    /** file_helper_.write: nothing happens without an open file. */
    method WriteOut(msg: string, w: WriteOutcome) returns (thrown: bool)
      requires Valid() && (w.Partial? ==> w.count < |msg|)
      modifies disk
      ensures Valid()
      ensures thrown == (isOpen && w.Partial?)
      ensures disk.files == if !isOpen then old(disk.files)
                            else old(disk.files)[base := old(disk.files)[base] + if w.Complete? then msg else msg[..w.count]]
    {
      if !isOpen {
        return false;
      }
      match w
      case Complete =>
        disk.Put(base, disk.files[base] + msg);
        return false;
      case Partial(k) =>
        disk.Put(base, disk.files[base] + msg[..k]);
        return true;
    }

    method SinkIt(msg: string, env: SinkEnv) returns (thrown: bool)
      requires Valid() && EnvOk(env.rotate) && (env.write.Partial? ==> env.write.count < |msg|)
      modifies this`isOpen, this`currentSize, disk
      ensures Valid()
      ensures (View(), thrown) == RotatingModel.SinkIt(old(View()), base, msg, env)
    {
      var newSize := currentSize + |msg|;
      if newSize > maxSize {
        if !env.flushOk || !isOpen {
          return true;
        }
        if |disk.files[base]| > 0 {
          thrown := Rotate(env.rotate);
          if thrown {
            return;
          }
          newSize := |msg|;
        }
      }
      thrown := WriteOut(msg, env.write);
      if !thrown {
        currentSize := newSize;
      }
    }
  }
}
