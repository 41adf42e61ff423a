// The tracer as the program runs it: cmd_t with its state, guard_ptrace, the
// wait loop of ptrace_cmd, and errmark_run_program.

module Errmark {
  import opened Base
  import opened RemoteMemory
  import opened Stdio
  import opened RemoteRead
  import opened Marks
  import opened Tracee
  import opened Tracer

  class Command {
    const nullify: bool
    const copyFh: Stream?
    const marker: Marker
    const machine: Machine

    var markState: bool
    var childExited: bool

    ghost var log: seq<Item>
    ghost var copied: seq<byte>
    ghost const shown: seq<byte>  // already on the terminal
    ghost const kept: seq<byte>   // already on the copy file

    constructor (nullify: bool, copyFh: Stream?, marker: Marker, machine: Machine)
      requires copyFh != marker.stdout && marker.stdout.pending == []
      ensures Valid()
      ensures this.nullify == nullify && this.copyFh == copyFh
      ensures this.marker == marker && this.machine == machine
      ensures shown == marker.stdout.Logical()
      ensures copyFh != null ==> kept == copyFh.Logical()
      ensures !markState && !childExited && log == [] && copied == []
    {
      this.nullify, this.copyFh, this.marker, this.machine := nullify, copyFh, marker, machine;
      markState, childExited := false, false;
      log, copied := [], [];
      shown := marker.stdout.Logical();
      kept := if copyFh == null then [] else copyFh.Logical();
    }

    ghost function Repr(): set<object> {
      {this, marker, marker.stdout, machine} + if copyFh == null then {} else {copyFh}
    }

    // In every state, the device followed by what stdout still buffers is the
    // logical log, no mark that is set is among what is buffered, and the copy file
    // is what was copied.
    ghost predicate Valid()
      reads this, marker, marker.stdout, if copyFh == null then {} else {copyFh}
    {
      && copyFh != marker.stdout
      && marker.stdout.Logical() == shown + Bytes(marker.Marks(), log)
      && MarksAreOut()
      && (copyFh != null ==> copyFh.Logical() == kept + copied)
    }

    ghost predicate MarksAreOut()
      reads this, marker, marker.stdout
    {
      |shown| + |Bytes(marker.Marks(), Settled(marker.Marks(), log))| <= |marker.stdout.device|
    }

    function Options(): Config {
      Config(nullify, copyFh != null)
    }

    // The state of tracer and kernel, given the locals of the wait loop.
    ghost function Now(l: Locals, mode: Mode): World
      reads this, marker, machine
    {
      World(machine.k, State(markState, childExited, marker.curFd, l, log, copied, mode))
    }

    // No method changes the marks.
    twostate predicate Steady()
      reads marker
    {
      marker.Marks() == old(marker.Marks())
    }

    ghost method Record(items: seq<Item>)
      requires marker.stdout.Logical()
               == shown + Bytes(marker.Marks(), log) + Bytes(marker.Marks(), items)
      requires MarksAreOut()
      requires Flushes(marker.Marks(), items) ==> marker.stdout.pending == []
      modifies this`log
      ensures log == old(log) + items
      ensures marker.stdout.Logical() == shown + Bytes(marker.Marks(), log)
      ensures MarksAreOut()
    {
      var t := marker.Marks();
      BytesConcat(t, log, items);
      ConcatAssoc(shown, Bytes(t, log), Bytes(t, items));
      SettledBytes(t, log + items);
      if !Flushes(t, items) {
        SettledConcat(t, log, items);
      }
      hide Bytes, Settled, Flushes;
      log := log + items;
    }

    method CloseIfOpen(ghost l: Locals, ghost mode: Mode)
      requires Valid()
      modifies this`log, marker.stdout
      ensures Valid() && Steady()
      ensures Now(l, mode) == World(old(machine.k), Close(old(Now(l, mode)).t))
    {
      hide Bytes, Settled, Flushes;
      if markState {
        marker.MarkClose();
        Record(SwitchFrom(marker.curFd));
      }
    }

    // `data` is the register buffer; when `aborted`, the C code does not return.
    method GuardPtrace(request: Request, data: Regs, ghost l: Locals)
      returns (rc: int, regs: Regs, aborted: bool)
      requires Valid() && l.regs == data
      modifies Repr()
      ensures Valid() && Steady()
      ensures rc == -1 <==> Ptrace(old(machine.k), request, data).errno != 0
      ensures Now(l.(regs := regs), if aborted then Aborted else Running)
              == Guarded(old(Now(l, Running)), request)
    {
      var errno;
      rc, errno, regs := machine.DoPtrace(request, data);
      var err := 0;
      if rc == -1 {
        err := errno;
      }
      if err != ESRCH {
        childExited := true;
      }
      if err != 0 && err != ESRCH {
        CloseIfOpen(l, Running);
        return rc, regs, true;
      }
      return rc, regs, false;
    }

    // guard_malloc() and pmem_copy().
    method FillBuffer(junk: seq<byte>, mem: Memory, waddr: Word, wlen: Word) returns (ebuf: array<byte>)
      ensures fresh(ebuf)
      ensures ebuf[..] == Filled(junk, Read(mem, waddr, wlen).data, wlen)
    {
      hide Read;
      ebuf := new byte[wlen](i requires 0 <= i => JunkAt(junk, i));
      var _, _ := PmemCopy(ebuf, mem, waddr, wlen);
    }

    // The payload of a traced write, read out of the stopped tracee.
    method EmitPayload(wfd: int, waddr: Word, wlen: Word, ghost l: Locals) returns (outOfMemory: bool)
      requires Valid() && l.wfd == wfd && l.waddr == waddr && l.wlen == wlen
      modifies this`log, this`copied, marker.stdout, if copyFh == null then {} else {copyFh}
      ensures Valid() && Steady()
      ensures Now(l, if outOfMemory then OutOfMemory else Running)
              == World(old(machine.k), Emitted(Options(), old(machine.k), old(Now(l, Running)).t))
    {
      hide Read, Filled, Bytes;
      var mem := machine.k.mem;
      if wfd == 2 && copyFh != null {
        if !machine.k.now.memoryLeft {
          return true;
        }
        var ebuf := FillBuffer(machine.k.now.junk, mem, waddr, wlen);
        var data := ebuf[..];
        marker.stdout.Fwrite(data);
        copyFh.Fwrite(data);
        OneItem(marker.Marks(), Payload(2, data));
        Record([Payload(2, data)]);
        ConcatAssoc(kept, copied, data);
        copied := copied + data;
      } else {
        var _, _ := PmemFwrite(marker.stdout, mem, waddr, wlen);
        ghost var data := Read(mem, waddr, wlen).data;
        OneItem(marker.Marks(), Payload(wfd, data));
        Record([Payload(wfd, data)]);
      }
      return false;
    }

    // mark_open() at the first traced write, then before_write().
    method OpenAndMark(wfd: int, waddr: Word, wlen: Word, ghost l: Locals)
      requires Valid() && l.wfd == wfd && l.waddr == waddr && l.wlen == wlen
      modifies this`markState, this`log, marker`curFd, marker.stdout
      ensures Valid() && Steady()
      ensures Now(l, Running) == World(old(machine.k), Marked(Opened(old(Now(l, Running)).t)))
    {
      if !markState {
        marker.MarkOpen();
        markState := true;
      }
      ghost var items := BeforeItems(marker.curFd, wfd, waddr, wlen);
      marker.BeforeWrite(wfd, waddr, wlen);
      Record(items);
    }

    // The entry stop of a write to fd 1 or 2.
    method EnterWrite(wfd: int, waddr: Word, wlen: Word, data: Regs, ghost l: Locals)
      returns (regs: Regs, mode: Mode)
      requires Valid() && l == Locals(true, wfd, waddr, wlen, data) && Traced(wfd)
      modifies Repr()
      ensures Valid() && Steady() && !mode.Returned?
      ensures var w := Guarded(World(old(machine.k),
                                     Nullified(Options(), Marked(Opened(old(Now(l, Running)).t)))), SETREGS);
              Now(l.(regs := regs), mode)
              == if w.t.mode.Running? then World(w.k, Emitted(Options(), w.k, w.t)) else w
    {
      hide Valid, Guarded, Emitted, Marked, Opened;
      OpenAndMark(wfd, waddr, wlen, l);
      regs := data;
      if nullify {
        regs := regs.(arg3 := 0);
      }
      var rc, aborted;
      rc, regs, aborted := GuardPtrace(SETREGS, regs, l.(regs := regs));
      if aborted {
        return regs, Aborted;
      }
      var outOfMemory := EmitPayload(wfd, waddr, wlen, l.(regs := regs));
      mode := if outOfMemory then OutOfMemory else Running;
    }

    // A stop at write(): on the way in note the call, and if it is traced mark,
    // disarm and emit it; on the way out supply the length as its result. Takes and
    // returns the locals of the loop.
    method WriteStop(toggle0: bool, wfd0: int, waddr0: Word, wlen0: Word, regs0: Regs)
      returns (toggle: bool, wfd: int, waddr: Word, wlen: Word, regs: Regs, mode: Mode)
      requires Valid() && regs0.syscall == SYS_WRITE
      modifies Repr()
      ensures Valid() && Steady()
      ensures Now(Locals(toggle, wfd, waddr, wlen, regs), mode)
              == OnStop(Options(), old(Now(Locals(toggle0, wfd0, waddr0, wlen0, regs0), Running)))
      ensures !mode.Returned?
    {
      hide Valid, Guarded, Emitted, Marked, Opened, Nullified;
      toggle, wfd, waddr, wlen, regs, mode := toggle0, wfd0, waddr0, wlen0, regs0, Running;
      if !toggle {
        toggle := true;
        wfd, waddr, wlen := AsInt(regs.arg1), regs.arg2, regs.arg3;
        if wfd == 1 || wfd == 2 {
          regs, mode := EnterWrite(wfd, waddr, wlen, regs, Locals(toggle, wfd, waddr, wlen, regs));
        }
      } else {
        if wfd == 1 || wfd == 2 {
          marker.AfterWrite(wfd, waddr, wlen);
          if nullify {
            regs := regs.(retn := wlen);
          }
        }
        var rc, aborted;
        rc, regs, aborted := GuardPtrace(SETREGS, regs, Locals(toggle, wfd, waddr, wlen, regs));
        if aborted {
          mode := Aborted;
        } else {
          toggle := false;
        }
      }
    }

    // The wait loop. `stack` is what the uninitialised locals hold, and `Running`
    // is returned for a tracee that has nothing more to report yet.
    method PtraceCmd(stack: Locals) returns (exitStatus: nat, mode: Mode, ghost l: Locals)
      requires Valid()
      modifies Repr()
      ensures Valid() && Steady()
      ensures Now(l, mode) == Loop(Options(), old(Now(stack.(toggle := false), Running)))
      ensures mode.Returned? ==> exitStatus == mode.status
    {
      hide Valid, Guarded, OnEntry, OnExit, Loop, Tracee.Ptrace;
      var toggle, wfd, waddr, wlen, regs := false, stack.wfd, stack.waddr, stack.wlen, stack.regs;
      exitStatus := 0;
      mode := Running;
      l := Locals(toggle, wfd, waddr, wlen, regs);
      ghost var whole := Loop(Options(), Now(l, Running));

      while machine.k.todo != []
        invariant Valid() && Steady()
        invariant l == Locals(toggle, wfd, waddr, wlen, regs)
        invariant mode.Running? && Loop(Options(), Now(l, Running)) == whole
        decreases |machine.k.todo|
      {
        ghost var before := Now(l, Running);
        LoopStep(Options(), before);
        var status := machine.DoWait();
        if status != 0 && !(Stopped(status) && (StopSignal(status) == SIGTRAP || StopSignal(status) == SIGCHLD)) {
          exitStatus := status;
          CloseIfOpen(l, Running);
          mode := Returned(status);
          break;
        }

        var rc, aborted;
        rc, regs, aborted := GuardPtrace(GETREGS, regs, l);
        l := l.(regs := regs);
        if aborted {
          mode := Aborted;
          break;
        }
        if rc == -1 && childExited {
          mode := Returned(0);
          break;
        }

        if regs.syscall == SYS_WRITE {
          toggle, wfd, waddr, wlen, regs, mode := WriteStop(toggle, wfd, waddr, wlen, regs);
          l := Locals(toggle, wfd, waddr, wlen, regs);
          if !mode.Running? {
            break;
          }
        }
        rc, regs, aborted := GuardPtrace(SYSCALL, regs, l);
        l := l.(regs := regs);
        if aborted {
          mode := Aborted;
          break;
        }
      }

      if mode.Returned? {
        CloseIfOpen(l, mode);
      }
      LoopStopped(Options(), Now(l, mode));
    }

    // The parent's side of errmark_run_program.
    method RunProgram(stack: Locals) returns (rc: nat, mode: Mode, ghost l: Locals)
      requires Valid()
      modifies Repr()
      ensures Valid() && Steady()
      ensures var t := State(false, false, old(marker.curFd), stack.(toggle := false),
                             old(log), old(copied), Running);
              Now(l, mode) == Program(Options(), World(old(machine.k), t))
      ensures mode.Returned? ==> rc == mode.status
    {
      hide Loop;
      markState := false;
      childExited := false;
      rc, mode, l := PtraceCmd(stack);
      if mode.Returned? {
        CloseIfOpen(l, mode);
      }
    }

    // main() from the run of the program to its own end. exit() flushes the
    // streams, abort() does not; but whatever is lost then comes after the last mark
    // that is set, so nothing is when the log ends with one.
    method Execute(stack: Locals) returns (code: nat, mode: Mode, ghost end: World)
      requires Valid()
      modifies Repr()
      ensures marker.Marks() == old(marker.Marks())
      ensures var t := State(false, false, old(marker.curFd), stack.(toggle := false),
                             old(log), old(copied), Running);
              end == Program(Options(), World(old(machine.k), t)) && end.t.mode == mode
      ensures mode.Returned? ==> code == mode.status / 256
      ensures mode.OutOfMemory? ==> code == 8
      ensures mode.Returned? || mode.OutOfMemory? ==>
                && marker.stdout.device == shown + Bytes(marker.Marks(), end.t.log)
                && (copyFh != null ==> copyFh.device == kept + end.t.copied)
      ensures marker.stdout.device <= shown + Bytes(marker.Marks(), end.t.log)
      ensures |shown + Bytes(marker.Marks(), Settled(marker.Marks(), end.t.log))| <= |marker.stdout.device|
      ensures Settled(marker.Marks(), end.t.log) == end.t.log ==>
                marker.stdout.device == shown + Bytes(marker.Marks(), end.t.log)
    {
      hide Program, Bytes, Settled;
      var rc;
      ghost var l;
      rc, mode, l := RunProgram(stack);
      end := Now(l, mode);
      code := if mode.OutOfMemory? then 8 else rc / 256;
      if mode.Returned? || mode.OutOfMemory? {
        marker.stdout.Fflush();
        if copyFh != null {
          copyFh.Fflush();
        }
      }
      SettledBytes(marker.Marks(), log);
    }
  }
}
