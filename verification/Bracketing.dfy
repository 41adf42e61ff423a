// Marks over whole runs: the terminal holds bracketed runs, however the program
// ends and whichever requests fail.

module Bracketing {
  import opened Base
  import opened RemoteMemory
  import opened RemoteRead
  import opened Marks
  import opened Runs
  import opened Texts
  import opened Tracee
  import opened Tracer
  import opened LogFacts
  import opened LoopFacts

  // Traced writes have a buffer and a possible length.
  predicate Markable(e: Event) {
    e.op.WriteEntry? && Traced(Fd(e.op.regs)) ==>
      e.op.regs.arg2 != 0 && e.op.regs.arg3 != 0xffff_ffff_ffff_ffff
  }

  predicate AllMarkable(es: seq<Event>) {
    forall i :: 0 <= i < |es| ==> Markable(es[i])
  }

  // ---- the parts of an iteration

  // A request made while nothing is half-written.
  lemma {:induction false} GuardedFinal(w: World, request: Request)
    requires w.t.mode.Running? && Marking(w.t)
    ensures var w' := Guarded(w, request);
            && Final(w'.t, false) && (w'.t.mode.Running? || w'.t.mode.Aborted?)
            && (w'.t.mode.Running? ==> Marking(w'.t))
  {
    var reply := Ptrace(w.k, request, w.t.locals.regs);
    var t := w.t.(locals := w.t.locals.(regs := reply.regs));
    assert Marking(t);
    MarkingAborts(t, reply.errno);
  }

  // The entry stop: the payload comes after the registers were set, so an abort, or
  // running out of memory, leaves the terminal with a mark but no payload.
  lemma {:induction false} EntryFinal(cfg: Config, w: World)
    requires w.t.mode.Running? && Marking(w.t)
    requires Traced(Fd(w.t.locals.regs)) ==> !Ignored(w.t.locals.regs.arg2, w.t.locals.regs.arg3)
    ensures var w' := OnEntry(cfg, w);
            && Final(w'.t, false) && !w'.t.mode.Returned?
            && (w'.t.mode.Running? ==> Marking(w'.t))
            && (!w'.t.mode.Running? ==> Erased(w'.t.log) == Erased(w.t.log))
  {
    hide Guarded;
    var t := Noted(w.t);
    assert Marking(t);
    if Traced(t.locals.wfd) {
      MarkingPrimes(t);
      var p := Nullified(cfg, Marked(Opened(t)));
      assert Primed(p);
      GuardedPrimed(World(w.k, p));
      var w1 := Guarded(World(w.k, p), SETREGS);
      GuardedKeeps(World(w.k, p), SETREGS);
      if w1.t.mode.Running? {
        EmittedMarks(cfg, w1);
      }
    }
  }

  // A traced write with no buffer or an impossible length is shown without a
  // switch, as though it belonged to the run that is going on, if any.
  lemma {:induction false} IgnoredWriteIsUnmarked(cfg: Config, w: World)
    requires w.t.mode.Running? && Traced(Fd(w.t.locals.regs))
    requires w.t.locals.regs.arg2 == 0 || w.t.locals.regs.arg3 == 0xffff_ffff_ffff_ffff
    ensures var t' := OnEntry(cfg, w).t;
            t'.mode.Running? ==>
              && t'.curFd == (if w.t.markState then w.t.curFd else -1)
              && |t'.log| == |w.t.log| + 1 && t'.log[..|w.t.log|] == w.t.log
              && t'.log[|w.t.log|].Payload? && t'.log[|w.t.log|].fd == Fd(w.t.locals.regs)
  {
    hide Read, Filled;
    var t := Noted(w.t);
    assert Marked(Opened(t)) == Opened(t) by {
      assert w.t.log + [] == w.t.log;
    }
  }

  lemma {:induction false} GuardedPrimed(w: World)
    requires w.t.mode.Running? && Primed(w.t)
    ensures var w' := Guarded(w, SETREGS);
            && Erased(w'.t.log) == Erased(w.t.log)
            && (w'.t.mode.Running? ==> Primed(w'.t))
            && (!w'.t.mode.Running? ==> w'.t.mode.Aborted? && Final(w'.t, false))
  {
    var reply := Ptrace(w.k, SETREGS, w.t.locals.regs);
    var t := w.t.(locals := w.t.locals.(regs := reply.regs));
    assert Primed(t);
    PrimedAborts(t, reply.errno);
  }

  lemma {:induction false} EmittedMarks(cfg: Config, w: World)
    requires w.t.mode.Running? && Primed(w.t)
    ensures var t' := Emitted(cfg, w.k, w.t);
            && (t'.mode.Running? ==> Marking(t') && Final(t', false))
            && (!t'.mode.Running? ==> t'.mode.OutOfMemory? && Final(t', false) && t'.log == w.t.log)
  {
    hide Read, Primed, Marking, Filled;
    var l := w.t.locals;
    var data := Read(w.k.mem, l.waddr, l.wlen).data;
    if l.wfd == 2 && cfg.copying {
      if w.k.now.memoryLeft {
        var ebuf := Filled(w.k.now.junk, data, l.wlen);
        PayloadMarks(w.t, ebuf, w.t.copied + ebuf);
      } else {
        PrimedOutOfMemory(w.t);
      }
    } else {
      PayloadMarks(w.t, data, w.t.copied);
    }
  }

  lemma {:induction false} PrimedOutOfMemory(t: State)
    requires Primed(t)
    ensures Primed(t.(mode := OutOfMemory))
  {
  }

  lemma {:induction false} ExitFinal(cfg: Config, w: World)
    requires w.t.mode.Running? && Marking(w.t)
    ensures var w' := OnExit(cfg, w);
            && Final(w'.t, false) && !w'.t.mode.Returned?
            && (w'.t.mode.Running? ==> Marking(w'.t))
  {
    hide Guarded;
    var t := Faked(cfg, w.t);
    assert Marking(t);
    GuardedFinal(World(w.k, t), SETREGS);
  }

  // Leaving the loop for a terminating status, or because the tracee vanished.
  lemma {:induction false} FinishedFinal(t: State, status: nat)
    requires Marking(t) && t.mode.Running?
    ensures status != 0 ==> Final(Finished(Close(t), status), false)
    ensures Final(Finished(t, 0), false)
    ensures Erased(Finished(Close(t), status).log) == Erased(Finished(t, 0).log) == Erased(t.log)
  {
    MarkingCloses(t);
    CloseOnce(Close(t), Erased(t.log), 1);
  }

  lemma {:induction false} MarkingIsFinal(t: State)
    requires Marking(t) && t.mode.Running?
    ensures Final(t, false)
  {
  }

  lemma {:induction false} StopFinal(cfg: Config, w: World, d: Kernel, e: Event)
    requires AtStop(w, d, e) && Marking(w.t) && Markable(e)
    ensures var w' := OnStop(cfg, w);
            Final(w'.t, false) && (w'.t.mode.Running? ==> Marking(w'.t))
  {
    hide Marking, Final, OnEntry, OnExit;
    match e.op {
      case WriteEntry(r, m) => EntryFinal(cfg, w);
      case WriteExit(_) => ExitFinal(cfg, w);
      case OtherStop(r) => MarkingIsFinal(w.t);
    }
  }

  // ---- the iteration

  // Whatever a request does, an iteration leaves the loop with the log closed as it
  // should be, or goes on with the log of the online marker.
  lemma {:induction false} IterateMarks(cfg: Config, w: World, d: Kernel)
    requires Following(w, d) && Marking(w.t) && Begun(w) && w.k.todo != [] && Markable(w.k.todo[0])
    ensures Final(Iterate(cfg, w).t, false)
    ensures Iterate(cfg, w).t.mode.Running? ==> Marking(Iterate(cfg, w).t)
  {
    var e, k := w.k.todo[0], Wait(w.k);
    FinishedFinal(w.t, e.status);
    if GoesOn(e.status) {
      GuardedFinal(World(k, w.t), GETREGS);
      var w1 := Guarded(World(k, w.t), GETREGS);
      if w1.t.mode.Running? {
        FinishedFinal(w1.t, 0);
      }
      if !e.op.Gone? && e.getErr == 0 {
        WaitReachesStop(w, d);
        hide Guarded, OnStop, Marking, Final, Disciplined;
        StopFinal(cfg, w1, DirectStep(d), e);
        var w2 := OnStop(cfg, w1);
        if w2.t.mode.Running? {
          GuardedFinal(w2, SYSCALL);
        }
      }
    }
  }

  lemma {:induction false} LoopMarks(cfg: Config, w: World, d: Kernel)
    requires Following(w, d) && Marking(w.t) && Begun(w) && AllMarkable(w.k.todo)
    ensures Final(Loop(cfg, w).t, false)
    decreases |w.k.todo|
  {
    hide Iterate, Marking, Final, Disciplined, DirectStep, Markable;
    MarkingIsFinal(w.t);
    if w.k.todo != [] {
      LoopStep(cfg, w);
      IterateFollows(cfg, w, d);
      IterateMarks(cfg, w, d);
      var w' := Iterate(cfg, w);
      if w'.t.mode.Running? {
        LoopMarks(cfg, w', DirectStep(d));
      } else {
        LoopStopped(cfg, w');
      }
    }
  }

  // The bracketing theorem, for any sequence of events and any failing requests.
  // Let `rs` be the payloads on the terminal, cut into maximal runs. When the
  // program returns, the log is every run bracketed, and the end of the last run
  // again: once more for status 0 and twice more for any other. When it aborts,
  // there is nothing after the first end, though the last run may be empty. And
  // when there was no traced write there is nothing at all.
  lemma {:induction false} ProgramIsBracketed(cfg: Config, w: World, rs: seq<Run>)
    requires Launched(w) && AllMarkable(w.k.todo)
    requires MaximalRuns(rs, Erased(Program(cfg, w).t.log))
    ensures var t := Program(cfg, w).t;
            match t.mode
            case Returned(status) =>
              t.log == Bracketed(rs) + Repeat(SwitchFrom(LastFd(rs)), if status == 0 then 1 else 2)
            case Aborted =>
              t.log == Bracketed(rs) || (Traced(t.curFd) && t.curFd != LastFd(rs)
                                         && t.log == Bracketed(rs) + [Start(t.curFd), End(t.curFd)])
            case Running => t.log + SwitchFrom(LastFd(rs)) == Bracketed(rs)
            case OutOfMemory =>
              t.log + SwitchFrom(t.curFd) == Bracketed(rs)
              || (Traced(t.curFd) && t.log == Bracketed(rs) + [Start(t.curFd)])
  {
    LaunchedFollows(w);
    LoopMarks(cfg, w, w.k);
    ProgramFinal(cfg, w);
    var t := Program(cfg, w).t;
    hide Program;
    FinalBrackets(t, rs);
  }

  lemma {:induction false} ProgramFinal(cfg: Config, w: World)
    requires Final(Loop(cfg, w).t, false)
    ensures Final(Program(cfg, w).t, true)
    ensures Erased(Program(cfg, w).t.log) == Erased(Loop(cfg, w).t.log)
  {
    hide Loop;
    var t := Loop(cfg, w).t;
    if t.mode.Returned? {
      CloseOnce(t, Erased(t.log), Closes(t.mode.status) - 1);
    }
  }

  lemma {:induction false} FinalBrackets(t: State, rs: seq<Run>)
    requires Final(t, true) && MaximalRuns(rs, Erased(t.log))
    ensures match t.mode
            case Returned(status) =>
              t.log == Bracketed(rs) + Repeat(SwitchFrom(LastFd(rs)), if status == 0 then 1 else 2)
            case Aborted =>
              t.log == Bracketed(rs) || (Traced(t.curFd) && t.curFd != LastFd(rs)
                                         && t.log == Bracketed(rs) + [Start(t.curFd), End(t.curFd)])
            case Running => t.log + SwitchFrom(LastFd(rs)) == Bracketed(rs)
            case OutOfMemory =>
              t.log + SwitchFrom(t.curFd) == Bracketed(rs)
              || (Traced(t.curFd) && t.log == Bracketed(rs) + [Start(t.curFd)])
  {
    var ws := Erased(t.log);
    OnlineIsOffline(ws, rs);
    MaximalRunsAreCut(rs, ws);
    CutIsMaximal(ws);
    assert CurrentFd(ws) == LastFd(rs);
    hide Online, Bracketed, Erased, Cut, CurrentFd, MaximalRuns;
    match t.mode {
      case Returned(status) =>
        RepeatedCloses(Online(ws), LastFd(rs), Closes(status) - 1);
      case Aborted =>
        OpenedRun(ws, t.curFd, LastFd(rs));
      case Running =>
      case OutOfMemory =>
        OpenedRun(ws, t.curFd, LastFd(rs));
    }
  }

  lemma {:induction false} RepeatedCloses(open: seq<Item>, fd: int, n: nat)
    ensures open + Repeat(SwitchFrom(fd), n + 1) == open + SwitchFrom(fd) + Repeat(SwitchFrom(fd), n)
  {
  }

  lemma {:induction false} OpenedRun(ws: seq<Write>, fd: int, last: int)
    requires CurrentFd(ws) == last && (Traced(fd) || fd == last)
    ensures var open, closed := Online(ws) + Opening(ws, fd), Online(ws) + SwitchFrom(last);
            if Traced(fd) && fd != last
            then open == closed + [Start(fd)] && open + SwitchFrom(fd) == closed + [Start(fd), End(fd)]
            else open == Online(ws)
  {
    hide Online, CurrentFd;
  }

  // The same in bytes, for every table of marks: each run between the start and
  // the end text of its descriptor, and the last end text once or twice more.
  lemma {:induction false} ProgramText(cfg: Config, w: World, rs: seq<Run>, marks: Table)
    requires Launched(w) && AllMarkable(w.k.todo)
    requires MaximalRuns(rs, Erased(Program(cfg, w).t.log))
    ensures var t := Program(cfg, w).t;
            t.mode.Returned? ==>
              Bytes(marks, t.log)
              == RunTexts(marks, rs) + Repeat(EndText(marks, LastFd(rs)), if t.mode.status == 0 then 1 else 2)
  {
    hide Program, Bytes, Bracketed, RunTexts, Repeat, EndText;
    ProgramIsBracketed(cfg, w, rs);
    var t := Program(cfg, w).t;
    if t.mode.Returned? {
      var n := if t.mode.status == 0 then 1 else 2;
      BytesConcat(marks, Bracketed(rs), Repeat(SwitchFrom(LastFd(rs)), n));
      BracketedText(marks, rs);
      RepeatedEndText(marks, LastFd(rs), n);
    }
  }

  // A copied payload for which there is no memory ends the tool before anything of
  // it is put out.
  lemma {:induction false} NoMemoryNoPayload(cfg: Config, w: World)
    requires w.t.mode.Running? && cfg.copying && !w.k.now.memoryLeft
    requires w.t.locals.regs.arg1 == 2
    ensures var t' := OnEntry(cfg, w).t;
            && !t'.mode.Running? && Erased(t'.log) == Erased(w.t.log) && t'.copied == w.t.copied
            && (w.k.now.setErr == 0 && !w.k.now.op.Gone? ==> t'.mode.OutOfMemory?)
  {
    hide Erased, Marked, Opened, Read, Filled;
    var t := Noted(w.t);
    assert t.locals.wfd == 2;
    MarkedKeeps(t);
    MarkedPayloads(t);
    ClosePayloads(Marked(Opened(t)));
    var p := Nullified(cfg, Marked(Opened(t)));
    GuardedKeeps(World(w.k, p), SETREGS);
    GuardedLog(World(w.k, p), SETREGS);
    ClosePayloads(p);
  }
}
