// What every iteration of the wait loop keeps, for every kernel behaviour and
// every failure of a request.

module LoopFacts {
  import opened Base
  import opened RemoteMemory
  import opened RemoteRead
  import opened Marks
  import opened Tracee
  import opened Tracer

  // The entry/exit protocol against `d`, the same program without a tracer: the
  // toggle is up exactly inside a write, and then the noted arguments are those of
  // that very call.
  ghost predicate Protocol(k: Kernel, l: Locals, d: Kernel) {
    && k.todo == d.todo && k.inWrite == d.inWrite
    && Disciplined(d.todo, d.inWrite)
    && l.toggle == d.inWrite
    && (d.inWrite ==>
          && d.regs.syscall == SYS_WRITE && k.regs.syscall == SYS_WRITE
          && l.wfd == Fd(d.regs) && l.waddr == d.regs.arg2 && l.wlen == d.regs.arg3)
  }

  // The loop goes on, in step with the program itself.
  ghost predicate Following(w: World, d: Kernel) {
    w.t.mode.Running? && Protocol(w.k, w.t.locals, d)
  }

  // The tracer learns something at the first event: without that it would go on
  // with registers it never read.
  predicate Informs(e: Event) {
    if e.op.Gone? then !GoesOn(e.status) else e.getErr != ESRCH
  }

  predicate Begun(w: World) {
    w.t.childExited || w.k.todo == [] || Informs(w.k.todo[0])
  }

  // ---- the parts of an iteration

  // What a request leaves alone.
  lemma {:induction false} GuardedKeeps(w: World, request: Request)
    ensures var w' := Guarded(w, request);
            && w'.k.inWrite == w.k.inWrite && w'.k.mem == w.k.mem && w'.k.output == w.k.output
            && w'.t.locals == w.t.locals.(regs := w'.t.locals.regs)
            && (request == SETREGS ==> w'.t.locals.regs == w.t.locals.regs
                                       && (w'.k.regs == w.k.regs || w'.k.regs == w.t.locals.regs)
                                       && w'.k.delivered == w.k.delivered)
            && (request != SETREGS ==> w'.k.regs == w.k.regs)
            && (request == SYSCALL ==> w'.t.locals.regs == w.t.locals.regs)
            && (w'.t.childExited <==> w.t.childExited || Ptrace(w.k, request, w.t.locals.regs).errno != ESRCH)
            && (w.t.mode.Running? ==> w'.t.mode.Running? || w'.t.mode.Aborted?)
  {
  }

  lemma {:induction false} GuardedLog(w: World, request: Request)
    requires w.t.mode.Running?
    ensures var w' := Guarded(w, request);
            && w'.t.curFd == w.t.curFd && w'.t.markState == w.t.markState
            && (w'.t.mode.Running? ==> w'.t.log == w.t.log)
            && (!w'.t.mode.Running? ==> w'.t.mode.Aborted? && w'.t.log == Close(w.t).log)
  {
  }

  lemma {:induction false} EmittedKeeps(cfg: Config, w: World)
    ensures var t' := Emitted(cfg, w.k, w.t);
            && t' == w.t.(log := t'.log, copied := t'.copied, mode := t'.mode)
            && (t'.mode == w.t.mode || t'.mode.OutOfMemory?)
  {
  }

  lemma {:induction false} MarkedKeeps(t: State)
    ensures var t' := Marked(Opened(t));
            && t'.locals == t.locals && t'.mode == t.mode && t'.copied == t.copied
            && t'.childExited == t.childExited && t'.markState
  {
  }

  // The direct run, event by event.
  lemma {:induction false} DirectStepCases(d: Kernel)
    requires d.todo != []
    ensures var d', e := DirectStep(d), d.todo[0];
            && d'.todo == d.todo[1..]
            && (e.op.WriteEntry? ==> d'.regs == e.op.regs && d'.mem == e.op.mem && d'.inWrite
                                     && d'.output == d.output && d'.delivered == d.delivered)
            && (e.op.WriteExit? ==>
                  var answer := TerminalAnswer(d.regs, e.op.answer);
                  && !d'.inWrite
                  && d'.regs == d.regs.(retn := Result(d.regs, d.mem, answer))
                  && d'.output == d.output + [Output(Fd(d.regs), Written(d.regs, d.mem, answer))]
                  && d'.delivered == d.delivered + [d'.regs])
            && (e.op.OtherStop? ==> d'.regs == e.op.regs && d'.inWrite == d.inWrite
                                    && d'.output == d.output && d'.delivered == d.delivered)
            && (e.op.Gone? ==> d'.regs == d.regs && d'.mem == d.mem && d'.inWrite == d.inWrite
                               && d'.output == d.output && d'.delivered == d.delivered)
  {
    var e := d.todo[0];
    var e' := if e.op.WriteExit? then e.(op := WriteExit(TerminalAnswer(d.regs, e.op.answer))) else e;
    assert ([e'] + d.todo[1..])[1..] == d.todo[1..];
  }

  // Registers read at a stop are those of the event.
  ghost predicate AtStop(w: World, d: Kernel, e: Event) {
    && w.t.mode.Running? && w.k.now == e && Live(e.status)
    && w.t.locals.regs == w.k.regs
    && w.k.todo == d.todo && w.k.inWrite == d.inWrite && Disciplined(d.todo, d.inWrite)
    && match e.op
       case WriteEntry(r, m) =>
         && d.inWrite && !w.t.locals.toggle && r.syscall == SYS_WRITE && w.k.regs == r && d.regs == r
         && w.k.mem == m
       case WriteExit(_) => !d.inWrite && w.t.locals.toggle && w.k.regs.syscall == SYS_WRITE
       case OtherStop(r) => !d.inWrite && !w.t.locals.toggle && r.syscall != SYS_WRITE && w.k.regs == r
       case Gone => false
  }

  lemma {:induction false} WaitReachesStop(w: World, d: Kernel)
    requires Following(w, d) && w.k.todo != [] && !w.k.todo[0].op.Gone?
    requires w.k.todo[0].getErr == 0
    ensures var w1 := Guarded(World(Wait(w.k), w.t), GETREGS);
            && AtStop(w1, DirectStep(d), w.k.todo[0])
            && w1.k == Wait(w.k) && w1.t == w.t.(locals := w1.t.locals, childExited := true)
            && w1.t.locals == w.t.locals.(regs := w1.k.regs)
  {
    DirectStepCases(d);
  }

  lemma {:induction false} StopKeepsProtocol(cfg: Config, w: World, d: Kernel, e: Event)
    requires AtStop(w, d, e)
    ensures var w' := OnStop(cfg, w);
            && !w'.t.mode.Returned?
            && (w'.t.mode.Running? ==> Following(w', d) && (w.t.childExited ==> w'.t.childExited))
  {
    hide Guarded, Emitted, Marked, Opened;
    match e.op {
      case WriteEntry(r, m) =>
        var t := Noted(w.t);
        MarkedKeeps(t);
        var p := Nullified(cfg, Marked(Opened(t)));
        GuardedKeeps(World(w.k, p), SETREGS);
        EmittedKeeps(cfg, Guarded(World(w.k, p), SETREGS));
      case WriteExit(_) =>
        GuardedKeeps(World(w.k, Faked(cfg, w.t)), SETREGS);
      case OtherStop(r) =>
    }
  }

  // ---- the iteration

  // Whatever a request does, an iteration either leaves the loop or goes on with
  // the protocol kept. It does leave when the tracee is gone, with its status, and
  // once a request has been answered the flag stays up.
  lemma {:induction false} IterateFollows(cfg: Config, w: World, d: Kernel)
    requires Following(w, d) && Begun(w) && w.k.todo != []
    ensures var w' := Iterate(cfg, w);
            && (w'.t.mode.Running? ==> Following(w', DirectStep(d)) && w'.t.childExited)
            && (w'.t.mode.Running? && w.k.todo[0].resumeErr == 0 ==> !w'.k.stopped)
            && (w.k.todo[0].op.Gone? ==> w'.t.mode == Returned(w.k.todo[0].status))
  {
    var e, k := w.k.todo[0], Wait(w.k);
    if GoesOn(e.status) {
      GuardedKeeps(World(k, w.t), GETREGS);
      var w1 := Guarded(World(k, w.t), GETREGS);
      if !e.op.Gone? && e.getErr == 0 {
        WaitReachesStop(w, d);
        hide Guarded, OnStop, Disciplined;
        StopKeepsProtocol(cfg, w1, DirectStep(d), e);
        GuardedKeeps(OnStop(cfg, w1), SYSCALL);
      }
    }
  }

  // Which stops keep the loop going, in numbers: SIGTRAP and SIGCHLD. A stop that is
  // not a write's is passed over and the tracee resumed; any other status but 0 ends
  // the run with that status, whatever the event.
  lemma {:induction false} StatusDecides(cfg: Config, w: World)
    requires w.t.mode.Running? && w.k.todo != []
    ensures var e, w' := w.k.todo[0], Iterate(cfg, w);
            && (e.status != 0 && e.status % 0x10000 != 0x057f && e.status % 0x10000 != 0x117f ==>
                  w'.t.mode == Returned(e.status))
            && ((e.status == 0x057f || e.status == 0x117f) && e.op.OtherStop? && e.op.regs.syscall != 1
                && e.getErr == 0 && e.resumeErr == 0 ==>
                  && w'.t == w.t.(childExited := true, locals := w.t.locals.(regs := e.op.regs))
                  && w'.k == w.k.(todo := w.k.todo[1..], now := e, stopped := false, regs := e.op.regs))
  {
    LiveStatuses(w.k.todo[0].status);
    hide Live, OnEntry, OnExit;
  }

  // Every request is made, and no failure but ESRCH goes unnoticed: if the loop goes
  // on after a stop, GETREGS succeeded, SETREGS did at either stop of a traced write
  // and at the way out of any write, and so did the request to resume.
  lemma {:induction false} FailuresAreNoticed(cfg: Config, w: World, d: Kernel)
    requires Following(w, d) && Begun(w) && w.k.todo != [] && !w.k.todo[0].op.Gone?
    requires Iterate(cfg, w).t.mode.Running?
    ensures var e := w.k.todo[0];
            && e.getErr == 0
            && (e.resumeErr == 0 || e.resumeErr == 3)
            && (e.op.WriteExit? || (e.op.WriteEntry? && (Fd(e.op.regs) == 1 || Fd(e.op.regs) == 2)) ==>
                  e.setErr == 0 || e.setErr == 3)
  {
    var e, k := w.k.todo[0], Wait(w.k);
    GuardedErrno(World(k, w.t), GETREGS);
    if e.getErr == 0 {
      WaitReachesStop(w, d);
      var w1 := Guarded(World(k, w.t), GETREGS);
      hide Guarded, Emitted, Marked, Opened, Disciplined;
      MarkedKeeps(Noted(w1.t));
      GuardedErrno(World(w1.k, Nullified(cfg, Marked(Opened(Noted(w1.t))))), SETREGS);
      GuardedErrno(World(w1.k, Faked(cfg, w1.t)), SETREGS);
      GuardedErrno(OnStop(cfg, w1), SYSCALL);
    }
  }

  lemma {:induction false} GuardedErrno(w: World, request: Request)
    requires !w.k.now.op.Gone? && w.t.mode.Running?
    ensures var now := w.k.now;
            var errno := if request.GETREGS? then now.getErr
                         else if request.SETREGS? then now.setErr else now.resumeErr;
            var w' := Guarded(w, request);
            && Ptrace(w.k, request, w.t.locals.regs).errno == errno
            && (w'.t.mode.Running? <==> errno == 0 || errno == 3)
            && (w'.t.childExited <==> w.t.childExited || errno != 3)
  {
  }

  // ---- runs

  // As long as the loop goes on it has consumed every event so far, in step with
  // the program itself, and after the first event its flag is up.
  lemma {:induction false} LoopFollows(cfg: Config, w: World, d: Kernel)
    requires Following(w, d) && Begun(w)
    ensures var w' := Loop(cfg, w);
            w'.t.mode.Running? ==>
              && w'.k.todo == [] && Following(w', Direct(d))
              && (w.k.todo != [] || w.t.childExited ==> w'.t.childExited)
    decreases |w.k.todo|
  {
    hide Iterate, Disciplined, DirectStep;
    if w.k.todo != [] {
      LoopStep(cfg, w);
      IterateFollows(cfg, w, d);
      var w' := Iterate(cfg, w);
      if w'.t.mode.Running? {
        LoopFollows(cfg, w', DirectStep(d));
      } else {
        LoopStopped(cfg, w');
      }
    }
  }

  // A program about to be run under the tracer.
  ghost predicate Launched(w: World) {
    && Initial(w.t) && !w.k.inWrite
    && Disciplined(w.k.todo, false)
    && (w.k.todo != [] ==> Informs(w.k.todo[0]))
  }

  lemma {:induction false} LaunchedFollows(w: World)
    requires Launched(w)
    ensures Following(w, w.k) && Begun(w)
  {
  }
}
