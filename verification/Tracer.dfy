// One iteration of the tracer's loop, and runs of it, as functions on the
// combined state of tracer and kernel. The imperative tracer in Errmark.dfy is
// proved to compute exactly these.

module Tracer {
  import opened Base
  import opened RemoteMemory
  import opened RemoteRead
  import opened Marks
  import opened Tracee

  // OutOfMemory is the exit(8) of a failed allocation, Aborted the abort() of a
  // failed ptrace request; Running also stands for waiting for the next event.
  datatype Mode = Running | Returned(status: nat) | Aborted | OutOfMemory

  // `nullify` has the kernel write nothing; `copying` is copy_fh != NULL.
  datatype Config = Config(nullify: bool, copying: bool)

  // The locals of the wait loop, which C leaves uninitialised but for `toggle`.
  datatype Locals = Locals(toggle: bool, wfd: int, waddr: Word, wlen: Word, regs: Regs)

  // `log` is all that was put on the terminal and `copied` on the copy file.
  datatype State = State(markState: bool, childExited: bool, curFd: int, locals: Locals,
                         log: seq<Item>, copied: seq<byte>, mode: Mode)

  datatype World = World(k: Kernel, t: State)

  // if (cmd->mark_state) mark_close();
  function Close(t: State): State {
    if t.markState then t.(log := t.log + SwitchFrom(t.curFd)) else t
  }

  // The verdict of guard_ptrace on an errno.
  function Guard(t: State, errno: nat): State {
    var t' := if errno != ESRCH then t.(childExited := true) else t;
    if errno != 0 && errno != ESRCH then Close(t').(mode := Aborted) else t'
  }

  // A guarded request that hands the tracer's registers to the kernel.
  function Guarded(w: World, request: Request): (w': World)
    ensures w'.k.todo == w.k.todo && w'.k.now == w.k.now
  {
    var reply := Ptrace(w.k, request, w.t.locals.regs);
    World(reply.k, Guard(w.t.(locals := w.t.locals.(regs := reply.regs)), reply.errno))
  }

  // ---- the entry stop of a write

  function Opened(t: State): State {
    if t.markState then t else t.(curFd := -1, markState := true)
  }

  function Marked(t: State): State {
    var l := t.locals;
    t.(log := t.log + BeforeItems(t.curFd, l.wfd, l.waddr, l.wlen),
       curFd := BeforeFd(t.curFd, l.wfd, l.waddr, l.wlen))
  }

  function Nullified(cfg: Config, t: State): State {
    if cfg.nullify then t.(locals := t.locals.(regs := t.locals.regs.(arg3 := 0))) else t
  }

  // Byte i of memory fresh from the allocator.
  function JunkAt(junk: seq<byte>, i: nat): byte {
    if i < |junk| then junk[i] else 0
  }

  // A fresh buffer of `len` bytes after `data` was copied to its front.
  function Filled(junk: seq<byte>, data: seq<byte>, len: Word): seq<byte> {
    seq(len, i requires 0 <= i => if i < |data| then data[i] else JunkAt(junk, i))
  }

  // The payload: through a buffer written out whole if it is to be copied too,
  // and word by word otherwise.
  function Emitted(cfg: Config, k: Kernel, t: State): State {
    var l := t.locals;
    var data := Read(k.mem, l.waddr, l.wlen).data;
    if l.wfd == 2 && cfg.copying then
      if !k.now.memoryLeft then t.(mode := OutOfMemory)
      else
        var ebuf := Filled(k.now.junk, data, l.wlen);
        t.(log := t.log + [Payload(2, ebuf)], copied := t.copied + ebuf)
    else
      t.(log := t.log + [Payload(l.wfd, data)])
  }

  function Noted(t: State): State {
    var r := t.locals.regs;
    t.(locals := t.locals.(toggle := true, wfd := AsInt(r.arg1), waddr := r.arg2, wlen := r.arg3))
  }

  function OnEntry(cfg: Config, w: World): (w': World)
    ensures w'.k.todo == w.k.todo && w'.k.now == w.k.now
  {
    var t := Noted(w.t);
    if !Traced(t.locals.wfd) then World(w.k, t)
    else
      var w' := Guarded(World(w.k, Nullified(cfg, Marked(Opened(t)))), SETREGS);
      if w'.t.mode.Running? then World(w'.k, Emitted(cfg, w'.k, w'.t)) else w'
  }

  // ---- the exit stop

  function Faked(cfg: Config, t: State): State {
    var l := t.locals;
    if Traced(l.wfd) && cfg.nullify then t.(locals := l.(regs := l.regs.(retn := l.wlen))) else t
  }

  function OnExit(cfg: Config, w: World): (w': World)
    ensures w'.k.todo == w.k.todo && w'.k.now == w.k.now
  {
    var w' := Guarded(World(w.k, Faked(cfg, w.t)), SETREGS);
    if w'.t.mode.Running? then World(w'.k, w'.t.(locals := w'.t.locals.(toggle := false))) else w'
  }

  // ---- the loop

  function OnStop(cfg: Config, w: World): (w': World)
    ensures w'.k.todo == w.k.todo && w'.k.now == w.k.now
  {
    if w.t.locals.regs.syscall != SYS_WRITE then w
    else if !w.t.locals.toggle then OnEntry(cfg, w)
    else OnExit(cfg, w)
  }

  function GoesOn(status: nat): bool {
    status == 0 || Live(status)
  }

  // Leaving the loop.
  function Finished(t: State, status: nat): State {
    Close(t).(mode := Returned(status))
  }

  function Iterate(cfg: Config, w: World): World
    requires w.k.todo != []
  {
    var k := Wait(w.k);
    if !GoesOn(k.now.status) then World(k, Finished(Close(w.t), k.now.status))
    else
      var w1 := Guarded(World(k, w.t), GETREGS);
      if !w1.t.mode.Running? then w1
      else if Ptrace(k, GETREGS, w.t.locals.regs).errno != 0 && w1.t.childExited then
        World(w1.k, Finished(w1.t, 0))
      else
        var w2 := OnStop(cfg, w1);
        if w2.t.mode.Running? then Guarded(w2, SYSCALL) else w2
  }

  lemma {:induction false} IterateConsumes(cfg: Config, w: World)
    requires w.k.todo != []
    ensures Iterate(cfg, w).k.todo == w.k.todo[1..]
  {
    hide Guarded, OnStop, OnEntry, OnExit, Close, GoesOn;
  }

  // As many iterations as there are events, or fewer.
  function Loop(cfg: Config, w: World): World
    decreases |w.k.todo|
  {
    if w.k.todo == [] || !w.t.mode.Running? then w
    else
      IterateConsumes(cfg, w);
      Loop(cfg, Iterate(cfg, w))
  }

  lemma {:induction false} LoopStep(cfg: Config, w: World)
    requires w.k.todo != [] && w.t.mode.Running?
    ensures Loop(cfg, w) == Loop(cfg, Iterate(cfg, w))
    ensures Iterate(cfg, w).k.todo == w.k.todo[1..]
  {
    IterateConsumes(cfg, w);
  }

  lemma {:induction false} LoopStopped(cfg: Config, w: World)
    requires w.k.todo == [] || !w.t.mode.Running?
    ensures Loop(cfg, w) == w
  {
  }

  // errmark_run_program closes once more.
  function Program(cfg: Config, w: World): World {
    var w' := Loop(cfg, w);
    if w'.t.mode.Returned? then World(w'.k, Close(w'.t)) else w'
  }

  // Before the first wait; `stack` is what the locals happen to hold.
  predicate Initial(t: State) {
    && !t.markState && !t.childExited && t.curFd == -1
    && !t.locals.toggle && t.log == [] && t.copied == [] && t.mode.Running?
  }
}
