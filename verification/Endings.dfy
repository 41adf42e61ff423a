// When the wait loop ends.

module Endings {
  import opened Base
  import opened RemoteMemory
  import opened RemoteRead
  import opened Marks
  import opened Tracee
  import opened Tracer
  import opened LoopFacts
  import opened Transparency

  // A finite program that the tracer has heard from ends the loop, whatever
  // fails.
  lemma {:induction false} EndingStops(cfg: Config, w: World, d: Kernel)
    requires Following(w, d) && Begun(w) && Ends(w.k.todo)
    ensures !Loop(cfg, w).t.mode.Running?
    decreases |w.k.todo|
  {
    hide Iterate, DirectStep;
    LoopStep(cfg, w);
    IterateFollows(cfg, w, d);
    var w' := Iterate(cfg, w);
    if w'.t.mode.Running? {
      EndingStops(cfg, w', DirectStep(d));
    } else {
      LoopStopped(cfg, w');
    }
  }

  // wait() has nothing left to wait for: it fails and leaves the status 0.
  predicate NoChild(e: Event) {
    e.op.Gone? && e.status == 0 && e.memoryLeft
  }

  lemma {:induction false} NoChildGoesOn(cfg: Config, w: World)
    requires w.t.mode.Running? && !w.t.childExited && w.k.todo != [] && NoChild(w.k.todo[0])
    ensures var w' := Iterate(cfg, w); w'.t.mode.Running? && !w'.t.childExited
  {
    hide Read, Marked, Filled;
    var w1 := Guarded(World(Wait(w.k), w.t), GETREGS);
    MarkedMode(Noted(w1.t));
  }

  lemma {:induction false} MarkedMode(t: State)
    ensures Marked(Opened(t)).mode == t.mode && Marked(Opened(t)).childExited == t.childExited
  {
  }

  // A tracee that exits with status 0 before its first stop is never noticed:
  // however often wait() is asked again, the loop goes on.
  lemma {:induction false} NeverNoticed(cfg: Config, w: World)
    requires w.t.mode.Running? && !w.t.childExited
    requires forall i :: 0 <= i < |w.k.todo| ==> NoChild(w.k.todo[i])
    ensures Loop(cfg, w).t.mode.Running?
    decreases |w.k.todo|
  {
    hide Iterate;
    if w.k.todo != [] {
      LoopStep(cfg, w);
      NoChildGoesOn(cfg, w);
      var w' := Iterate(cfg, w);
      assert forall i :: 0 <= i < |w'.k.todo| ==> w'.k.todo[i] == w.k.todo[i + 1];
      NeverNoticed(cfg, w');
    } else {
      LoopStopped(cfg, w);
    }
  }

  // GETREGS answers ESRCH at this event.
  predicate Vanishes(e: Event) {
    GoesOn(e.status) && (e.op.Gone? || e.getErr == ESRCH)
  }

  lemma {:induction false} VanishingStops(cfg: Config, w: World)
    requires w.t.mode.Running? && w.t.childExited && w.k.todo != [] && Vanishes(w.k.todo[0])
    ensures Iterate(cfg, w).t.mode == Returned(0)
  {
  }

  // `child_exited` is raised by success and not by ESRCH, yet it is up in time:
  // ESRCH at any event but the first finds it raised, and no run gets past such an
  // event, whatever else fails on the way.
  lemma {:induction false} EsrchEndsTheRun(cfg: Config, w: World, d: Kernel, n: nat)
    requires Following(w, d) && Begun(w)
    requires n < |w.k.todo| && Vanishes(w.k.todo[n]) && (n > 0 || w.t.childExited)
    ensures !Loop(cfg, w).t.mode.Running?
    decreases n
  {
    hide Iterate, DirectStep, Vanishes, Disciplined;
    LoopStep(cfg, w);
    var w' := Iterate(cfg, w);
    if n == 0 {
      VanishingStops(cfg, w);
      LoopStopped(cfg, w');
    } else {
      IterateFollows(cfg, w, d);
      if w'.t.mode.Running? {
        EsrchEndsTheRun(cfg, w', DirectStep(d), n - 1);
      } else {
        LoopStopped(cfg, w');
      }
    }
  }

  // A finite program whose first registers can be read ends the loop if and only
  // if that is not all there is: it must not have gone, with status 0, before its
  // first stop.
  lemma {:induction false} LoopEndsExactlyWhen(cfg: Config, w: World)
    requires Initial(w.t) && !w.k.inWrite && Disciplined(w.k.todo, false)
    requires Ends(w.k.todo)
    requires w.k.todo[0].op.Gone? || w.k.todo[0].getErr != ESRCH
    requires w.k.todo[0].memoryLeft
    ensures Loop(cfg, w).t.mode.Running? <==> w.k.todo[0].op.Gone? && w.k.todo[0].status == 0
  {
    if w.k.todo[0].op.Gone? && w.k.todo[0].status == 0 {
      GoneIsLast(w.k.todo, false);
      NeverNoticed(cfg, w);
    } else {
      LaunchedFollows(w);
      EndingStops(cfg, w, w.k);
    }
  }

  // ---- abort()

  // The open run has been closed, and nothing was put out after that.
  ghost predicate ClosedLast(t: State) {
    t.mode.Aborted? && t.markState && Traced(t.curFd) ==>
      t.log != [] && t.log[|t.log| - 1] == End(t.curFd)
  }

  lemma {:induction false} GuardedCloses(w: World, request: Request)
    requires w.t.mode.Running?
    ensures ClosedLast(Guarded(w, request).t)
  {
    GuardedLog(w, request);
  }

  lemma {:induction false} IterateCloses(cfg: Config, w: World)
    requires w.t.mode.Running? && w.k.todo != []
    ensures ClosedLast(Iterate(cfg, w).t)
  {
    hide Guarded, ClosedLast, Emitted, Marked, Opened;
    var k := Wait(w.k);
    GuardedCloses(World(k, w.t), GETREGS);
    NotAborted(Finished(Close(w.t), k.now.status));
    var w1 := Guarded(World(k, w.t), GETREGS);
    NotAborted(Finished(w1.t, 0));
    if w1.t.mode.Running? {
      var t := Noted(w1.t);
      MarkedKeeps(t);
      var p := Nullified(cfg, Marked(Opened(t)));
      GuardedCloses(World(w1.k, p), SETREGS);
      var w2 := Guarded(World(w1.k, p), SETREGS);
      EmittedKeeps(cfg, w2);
      NotAborted(Emitted(cfg, w2.k, w2.t));
      GuardedCloses(World(w1.k, Faked(cfg, w1.t)), SETREGS);
      var w3 := OnStop(cfg, w1);
      if w3.t.mode.Running? {
        GuardedCloses(w3, SYSCALL);
      }
    }
  }

  lemma {:induction false} NotAborted(t: State)
    ensures !t.mode.Aborted? ==> ClosedLast(t)
  {
  }

  // When a request aborts the run, the last thing on the log is the end mark of the
  // run that was open. So if that mark is set, no byte of the log is lost with the
  // buffer.
  lemma {:induction false} AbortEndsWithMark(cfg: Config, w: World, marks: Table)
    requires w.t.mode.Running?
    ensures var t := Program(cfg, w).t;
            t.mode.Aborted? && t.markState && MarkText(marks, End(t.curFd)).Some? ==> Settled(marks, t.log) == t.log
    decreases |w.k.todo|
  {
    hide Iterate, Settled;
    if w.k.todo == [] {
      LoopStopped(cfg, w);
    } else {
      LoopStep(cfg, w);
      IterateCloses(cfg, w);
      var w' := Iterate(cfg, w);
      if w'.t.mode.Running? {
        AbortEndsWithMark(cfg, w', marks);
      } else {
        LoopStopped(cfg, w');
        SettledByMark(marks, w'.t.log);
      }
    }
  }

  lemma {:induction false} SettledByMark(marks: Table, log: seq<Item>)
    ensures log != [] && MarkText(marks, log[|log| - 1]).Some? ==> Settled(marks, log) == log
  {
  }
}
