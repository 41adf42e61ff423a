// A tracee that reacts: what it does next depends on the registers it has been
// given back. If it does not look at arg3 of a traced write, it does under the
// tracer what it does by itself.

module Reactive {
  import opened Base
  import opened RemoteMemory
  import opened Marks
  import opened Tracee
  import opened Tracer
  import opened LogFacts
  import opened LoopFacts
  import opened Arrival
  import opened Transparency

  // The next event, given how many there were and the registers with which the
  // tracee has come out of its writes so far.
  type Behaviour = (nat, seq<Regs>) -> Event

  ghost predicate Blind(f: Behaviour) {
    forall i: nat, rs: seq<Regs> :: f(i, AllClobbered(rs)) == f(i, rs)
  }

  // What it does in n events by itself.
  function DirectScript(f: Behaviour, i: nat, d: Kernel, n: nat): seq<Event>
    decreases n
  {
    if n == 0 then []
    else
      var e := f(i, d.delivered);
      [e] + if e.op.Gone? then [] else DirectScript(f, i + 1, DirectStep(d.(todo := [e])), n - 1)
  }

  // The tracer and the tracee in turns: each event is chosen on the registers that
  // the tracer has let through.
  function TracedRun(cfg: Config, f: Behaviour, i: nat, w: World, n: nat): World
    decreases n
  {
    if n == 0 || !w.t.mode.Running? then w
    else TracedRun(cfg, f, i + 1, Iterate(cfg, Facing(w, [f(i, w.k.delivered)])), n - 1)
  }

  // The same state with other events to come.
  function Facing(w: World, es: seq<Event>): World {
    World(w.k.(todo := es), w.t)
  }

  // ---- an iteration does not depend on what comes after its event

  lemma {:induction false} GuardedFacing(w: World, request: Request, es: seq<Event>)
    ensures Guarded(Facing(w, es), request) == Facing(Guarded(w, request), es)
  {
  }

  lemma {:induction false} OnStopFacing(cfg: Config, w: World, es: seq<Event>)
    ensures OnStop(cfg, Facing(w, es)) == Facing(OnStop(cfg, w), es)
  {
    hide Guarded, Emitted, Marked, Opened;
    var p := Nullified(cfg, Marked(Opened(Noted(w.t))));
    GuardedFacing(World(w.k, p), SETREGS, es);
    EmittedFacing(cfg, Guarded(World(w.k, p), SETREGS), es);
    GuardedFacing(World(w.k, Faked(cfg, w.t)), SETREGS, es);
  }

  lemma {:induction false} EmittedFacing(cfg: Config, w: World, es: seq<Event>)
    ensures Emitted(cfg, w.k.(todo := es), w.t) == Emitted(cfg, w.k, w.t)
  {
  }

  lemma {:induction false} WaitFacing(k: Kernel, e: Event, es: seq<Event>)
    ensures Wait(k.(todo := [e] + es)) == Wait(k.(todo := [e])).(todo := es)
  {
    assert ([e] + es)[1..] == es;
  }

  lemma {:induction false} IterateFacing(cfg: Config, w: World, e: Event, es: seq<Event>)
    ensures Iterate(cfg, Facing(w, [e] + es)) == Facing(Iterate(cfg, Facing(w, [e])), es)
  {
    hide Guarded, OnStop, Close, Wait, Tracee.Ptrace, GoesOn;
    WaitFacing(w.k, e, es);
    var k := Wait(w.k.(todo := [e]));
    GuardedFacing(World(k, w.t), GETREGS, es);
    PtraceFacing(k, GETREGS, w.t.locals.regs, es);
    var w1 := Guarded(World(k, w.t), GETREGS);
    OnStopFacing(cfg, w1, es);
    GuardedFacing(OnStop(cfg, w1), SYSCALL, es);
  }

  lemma {:induction false} PtraceFacing(k: Kernel, request: Request, data: Regs, es: seq<Event>)
    ensures Ptrace(k.(todo := es), request, data).errno == Ptrace(k, request, data).errno
  {
  }

  lemma {:induction false} DirectStepFacing(d: Kernel, e: Event, es: seq<Event>)
    ensures DirectStep(d.(todo := [e] + es)) == DirectStep(d.(todo := [e])).(todo := es)
  {
    var e' := if e.op.WriteExit? then e.(op := WriteExit(TerminalAnswer(d.regs, e.op.answer))) else e;
    assert ([e] + es)[1..] == es && [e][1..] == [] && [e'] + [] == [e'];
    WaitFacing(d, e', es);
  }

  // ---- one event of the tracee in both runs

  lemma {:induction false} SameEvent(f: Behaviour, i: nat, rs: seq<Regs>)
    requires Blind(f) && AllTruthful(rs)
    ensures f(i, AllAnswered(rs)) == f(i, rs)
  {
    AnsweredIsClobbered(rs);
  }

  lemma {:induction false} StaysTruthful(d: Kernel)
    requires d.todo != [] && Disciplined(d.todo, d.inWrite) && AllTruthful(d.delivered) && AllTold(d)
    ensures AllTruthful(DirectStep(d).delivered) && AllTold(DirectStep(d))
  {
    DirectStepCases(d);
    if d.todo[0].op.WriteExit? {
      hide Result, Told;
      ToldTruthful(d.delivered, d.regs, d.mem, DirectStep(d).regs);
    }
  }

  // ---- whole runs

  // Tracer and tracee, in turns, at a state that the direct run matches, with the
  // events `es` of the direct run still to come.
  ghost predicate InStep(w: World, d: Kernel, es: seq<Event>) {
    && w.k.todo == [] && Following(Facing(w, es), d.(todo := es)) && Begun(Facing(w, es))
    && Corresponds(w, d) && AllClean(es) && AllTruthful(d.delivered) && AllTold(d.(todo := es))
  }

  lemma {:induction false} StaysInStep(cfg: Config, w: World, d: Kernel, e: Event, es: seq<Event>)
    requires InStep(w, d, [e] + es) && cfg.nullify
    ensures Iterate(cfg, Facing(w, [e] + es)) == Facing(Iterate(cfg, Facing(w, [e])), es)
    ensures !e.op.Gone? ==> InStep(Iterate(cfg, Facing(w, [e])), DirectStep(d.(todo := [e])), es)
    ensures e.op.Gone? ==> !Iterate(cfg, Facing(w, [e])).t.mode.Running?
    ensures Iterate(cfg, Facing(w, [e])).k.todo == []
  {
    var all := [e] + es;
    assert all[1..] == es && all[0] == e;
    hide Iterate, DirectStep, AllTold, AllAnswered;
    IterateFacing(cfg, w, e, es);
    DirectStepFacing(d, e, es);
    IterateFollows(cfg, Facing(w, all), d.(todo := all));
    IterateConsumes(cfg, Facing(w, [e]));
    if !e.op.Gone? {
      OneCorresponds(cfg, Facing(w, all), d.(todo := all));
      StaysTruthful(d.(todo := all));
      assert forall i :: 0 <= i < |es| ==> es[i] == all[i + 1];
    }
  }

  lemma {:induction false} TracedRunFollows(cfg: Config, f: Behaviour, i: nat, w: World, d: Kernel, n: nat)
    requires Blind(f) && cfg.nullify && InStep(w, d, DirectScript(f, i, d, n))
    ensures TracedRun(cfg, f, i, w, n) == Loop(cfg, Facing(w, DirectScript(f, i, d, n)))
    decreases n
  {
    hide Iterate, DirectStep, Loop, Blind;
    var es := DirectScript(f, i, d, n);
    if n == 0 {
      LoopStopped(cfg, Facing(w, es));
    } else {
      var e := f(i, d.delivered);
      SameEvent(f, i, d.delivered);
      assert f(i, w.k.delivered) == e;
      var rest := es[1..];
      assert es == [e] + rest;
      hide InStep;
      StaysInStep(cfg, w, d, e, rest);
      assert w.t.mode.Running? by { InStepRuns(w, d, es); }
      LoopStep(cfg, Facing(w, es));
      var w1 := Iterate(cfg, Facing(w, [e]));
      if e.op.Gone? {
        LoopStopped(cfg, Facing(w1, rest));
      } else {
        TracedRunFollows(cfg, f, i + 1, w1, DirectStep(d.(todo := [e])), n - 1);
      }
    }
  }

  lemma {:induction false} InStepRuns(w: World, d: Kernel, es: seq<Event>)
    requires InStep(w, d, es)
    ensures w.t.mode.Running?
  {
  }

  // A tracee blind to arg3 of a traced write, whose traced buffers are mapped, does
  // under the tracer exactly what it does alone: the run in which it reacts to the
  // tracer's registers is the run on the events it produces by itself. So what is
  // proved of runs on fixed events holds of tracees that react.
  lemma {:induction false} ReactionsAreUnchanged(cfg: Config, f: Behaviour, w: World, n: nat)
    requires Blind(f) && cfg.nullify && w.k.todo == [] && w.k.output == [] && w.k.delivered == []
    requires var es := DirectScript(f, 0, w.k, n);
             Launched(Facing(w, es)) && AllClean(es) && AllTold(w.k.(todo := es))
    ensures TracedRun(cfg, f, 0, w, n) == Loop(cfg, Facing(w, DirectScript(f, 0, w.k, n)))
    ensures TracedRun(cfg, f, 0, w, n).k.delivered
            == AllClobbered(Direct(w.k.(todo := DirectScript(f, 0, w.k, n))).delivered)
  {
    var es := DirectScript(f, 0, w.k, n);
    LaunchedFollows(Facing(w, es));
    TracedRunFollows(cfg, f, 0, w, w.k, n);
    TracedRunIsDirectRun(cfg, Facing(w, es));
    ProgramKernel(cfg, Facing(w, es));
  }
}
