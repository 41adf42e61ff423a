// The copy file holds the fd 2 payloads and nothing else.

module CopyFile {
  import opened Base
  import opened RemoteMemory
  import opened RemoteRead
  import opened Marks
  import opened Runs
  import opened Tracee
  import opened Tracer
  import opened LogFacts
  import opened LoopFacts
  import opened Arrival
  import opened Transparency

  // The bytes written to one descriptor.
  function BytesTo(fd: int, ws: seq<Write>): seq<byte> {
    if ws == [] then []
    else BytesTo(fd, ws[..|ws| - 1]) + if ws[|ws| - 1].fd == fd then ws[|ws| - 1].data else []
  }

  lemma {:induction false} BytesToSnoc(fd: int, ws: seq<Write>, w: Write)
    ensures BytesTo(fd, ws + [w]) == BytesTo(fd, ws) + if w.fd == fd then w.data else []
  {
    Last(ws, w);
  }

  ghost predicate Copying(cfg: Config, t: State) {
    t.copied == if cfg.copying then BytesTo(2, Erased(t.log)) else []
  }

  lemma {:induction false} CloseCopies(cfg: Config, t: State)
    requires Copying(cfg, t)
    ensures Copying(cfg, Close(t))
  {
    ErasedConcat(t.log, SwitchFrom(t.curFd));
    ErasedMarks(t.curFd, t.curFd, 0, 0);
    assert Erased(t.log) + [] == Erased(t.log);
  }

  lemma {:induction false} GuardedCopies(cfg: Config, w: World, request: Request)
    requires Copying(cfg, w.t)
    ensures Copying(cfg, Guarded(w, request).t)
  {
    var reply := Ptrace(w.k, request, w.t.locals.regs);
    var t := w.t.(locals := w.t.locals.(regs := reply.regs));
    hide Erased;
    CloseCopies(cfg, t);
    CloseCopies(cfg, t.(childExited := true));
  }

  lemma {:induction false} MarkedCopies(cfg: Config, t: State)
    requires Copying(cfg, t)
    ensures Copying(cfg, Marked(Opened(t)))
  {
    var o := Opened(t);
    ErasedConcat(o.log, BeforeItems(o.curFd, o.locals.wfd, o.locals.waddr, o.locals.wlen));
    ErasedMarks(o.curFd, o.locals.wfd, o.locals.waddr, o.locals.wlen);
    assert Erased(t.log) + [] == Erased(t.log);
  }

  lemma {:induction false} PayloadCopies(cfg: Config, t: State, w: Write)
    requires Copying(cfg, t)
    ensures Copying(cfg, t.(log := t.log + [Payload(w.fd, w.data)],
                            copied := if w.fd == 2 && cfg.copying then t.copied + w.data else t.copied))
  {
    ErasedPayload(t.log, w);
    BytesToSnoc(2, Erased(t.log), w);
  }

  lemma {:induction false} OnStopCopies(cfg: Config, w: World)
    requires Copying(cfg, w.t)
    ensures Copying(cfg, OnStop(cfg, w).t)
  {
    hide Guarded, Erased, BytesTo, Read, Filled, Marked, Opened;
    if w.t.locals.toggle {
      GuardedCopies(cfg, World(w.k, Faked(cfg, w.t)), SETREGS);
    } else {
      var t := Noted(w.t);
      MarkedCopies(cfg, t);
      var p := Nullified(cfg, Marked(Opened(t)));
      GuardedCopies(cfg, World(w.k, p), SETREGS);
      var w1 := Guarded(World(w.k, p), SETREGS);
      var l := w1.t.locals;
      var data := Read(w1.k.mem, l.waddr, l.wlen).data;
      PayloadCopies(cfg, w1.t, Write(l.wfd, data));
      PayloadCopies(cfg, w1.t, Write(l.wfd, Filled(w1.k.now.junk, data, l.wlen)));
    }
  }

  lemma {:induction false} IterateCopies(cfg: Config, w: World)
    requires Copying(cfg, w.t) && w.k.todo != []
    ensures Copying(cfg, Iterate(cfg, w).t)
  {
    hide Guarded, OnStop, Erased, BytesTo, Close, GoesOn, Tracee.Wait, Tracee.Ptrace;
    var k := Wait(w.k);
    CloseCopies(cfg, w.t);
    CloseCopies(cfg, Close(w.t));
    var w1 := Guarded(World(k, w.t), GETREGS);
    GuardedCopies(cfg, World(k, w.t), GETREGS);
    CloseCopies(cfg, w1.t);
    OnStopCopies(cfg, w1);
    GuardedCopies(cfg, OnStop(cfg, w1), SYSCALL);
  }

  lemma {:induction false} LoopCopies(cfg: Config, w: World)
    requires Copying(cfg, w.t)
    ensures Copying(cfg, Loop(cfg, w).t)
    decreases |w.k.todo|
  {
    hide Iterate, Copying;
    if w.k.todo != [] && w.t.mode.Running? {
      IterateCopies(cfg, w);
      LoopStep(cfg, w);
      LoopCopies(cfg, Iterate(cfg, w));
    }
  }

  // For every sequence of events and every failure: the copy file is the fd 2
  // part of the log, and has no mark in it.
  lemma {:induction false} CopyIsProjection(cfg: Config, w: World)
    requires Initial(w.t) && cfg.copying
    ensures Program(cfg, w).t.copied == BytesTo(2, Erased(Program(cfg, w).t.log))
  {
    assert Copying(cfg, w.t);
    LoopCopies(cfg, w);
    var t := Loop(cfg, w).t;
    hide Loop;
    CloseCopies(cfg, t);
  }

  // And when every write arrives it is what the direct run writes to fd 2.
  lemma {:induction false} CopyIsDirect(cfg: Config, w: World)
    requires Launched(w) && AllClean(w.k.todo) && AllArrive(cfg, w.k.todo) && cfg == Config(true, true)
    requires w.k.output == [] && w.k.delivered == []
    ensures Program(cfg, w).t.copied == BytesTo(2, Shown(Direct(w.k).output) + InFlight(Direct(w.k)))
  {
    CopyIsProjection(cfg, w);
    TracedRunIsDirectRun(cfg, w);
  }

  // With a copy file an fd 2 payload always has its full length: the bytes that
  // could be read, and then whatever the buffer held. It is the payload that would
  // be sent without a copy file exactly when all of it could be read.
  lemma {:induction false} ShortCopyIsPadded(r: Regs, m: Memory, junk: seq<byte>)
    requires Fd(r) == 2
    ensures var sent, data := Sent(Config(true, true), r, m, junk), Sent(Config(true, false), r, m, junk);
            && |sent| == r.arg3 && |data| <= |sent| && sent[..|data|] == data
            && (forall i :: |data| <= i < |sent| ==> sent[i] == JunkAt(junk, i))
            && (sent == data <==> |Read(m, r.arg2, r.arg3).data| == r.arg3)
  {
    ReadLength(m, r.arg2, r.arg3);
    hide Read;
  }
}
