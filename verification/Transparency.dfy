// The marked run with its marks erased is the direct run.

module Transparency {
  import opened Base
  import opened RemoteMemory
  import opened RemoteRead
  import opened RemoteReadFacts
  import opened Marks
  import opened Runs
  import opened Tracee
  import opened Tracer
  import opened LogFacts
  import opened LoopFacts
  import opened Arrival

  // ---- how the two runs correspond

  // The writes to fd 1 and fd 2 among those the kernel performed.
  function Shown(outputs: seq<Output>): seq<Write> {
    if outputs == [] then []
    else
      var o := outputs[|outputs| - 1];
      Shown(outputs[..|outputs| - 1]) + if Traced(o.fd) then [Write(o.fd, o.data)] else []
  }

  // The same writes, with nothing written to fd 1 or 2.
  function Muted(outputs: seq<Output>): seq<Output> {
    seq(|outputs|, i requires 0 <= i < |outputs| =>
      if Traced(outputs[i].fd) then Output(outputs[i].fd, []) else outputs[i])
  }

  // The register that a traced write does not get back.
  function Clobbered(r: Regs): Regs {
    if Traced(Fd(r)) then r.(arg3 := 0) else r
  }

  // What the tracee gets back from a traced write: its own length for a result.
  function Answered(r: Regs): Regs {
    if Traced(Fd(r)) then r.(arg3 := 0, retn := r.arg3) else r
  }

  function AllAnswered(rs: seq<Regs>): seq<Regs> {
    seq(|rs|, i requires 0 <= i < |rs| => Answered(rs[i]))
  }

  function AllClobbered(rs: seq<Regs>): seq<Regs> {
    seq(|rs|, i requires 0 <= i < |rs| => Clobbered(rs[i]))
  }

  // A write that has been entered and not left: the tracer shows it at once.
  function InFlight(d: Kernel): seq<Write> {
    if d.inWrite && Traced(Fd(d.regs)) then [Write(Fd(d.regs), Due(d.regs, d.mem))] else []
  }

  ghost predicate Corresponds(w: World, d: Kernel) {
    && w.k.output == Muted(d.output)
    && w.k.delivered == AllAnswered(d.delivered)
    && (d.inWrite ==> w.k.mem == d.mem && w.k.regs == Clobbered(d.regs))
  }

  // The premise: requests succeed while the tracee lives.
  predicate AllClean(es: seq<Event>) {
    forall i :: 0 <= i < |es| ==> es[i].op.Gone? || Clean(es[i])
  }

  // ---- the two stops of a write, when nothing fails

  lemma {:induction false} CleanGuarded(w: World, request: Request)
    requires Clean(w.k.now) && !w.k.now.op.Gone? && request != GETREGS
    ensures var w' := Guarded(w, request);
            && w'.t == w.t.(childExited := true)
            && w'.k == if request == SETREGS then w.k.(regs := w.t.locals.regs) else Released(w.k)
  {
  }

  // At the entry stop the kernel gets the registers with arg3 zeroed, if the write
  // is traced, and the terminal gets its payload and nothing else but marks.
  lemma {:induction false} CleanEntry(cfg: Config, w: World)
    requires Clean(w.k.now) && !w.k.now.op.Gone?
    requires w.t.mode.Running? && w.t.locals.regs == w.k.regs
    ensures var w', r := OnEntry(cfg, w), w.k.regs;
            && w'.t.mode.Running?
            && w'.k == w.k.(regs := if cfg.nullify then Clobbered(r) else r)
            && Erased(w'.t.log) == Erased(w.t.log)
                 + if Traced(Fd(r)) then [Write(Fd(r), Sent(cfg, r, w.k.mem, w.k.now.junk))] else []
  {
    hide Read, Guarded, Filled, Marked, Opened, Erased;
    var r := w.k.regs;
    var t := Noted(w.t);
    if Traced(t.locals.wfd) {
      MarkedPayloads(t);
      MarkedKeeps(t);
      var p := Nullified(cfg, Marked(Opened(t)));
      CleanGuarded(World(w.k, p), SETREGS);
      ErasedPayload(p.log, Write(Fd(r), Sent(cfg, r, w.k.mem, w.k.now.junk)));
    } else {
      assert Erased(w.t.log) + [] == Erased(w.t.log);
    }
  }

  // The same by the low half of the first argument, in numbers.
  lemma {:induction false} EntryByDescriptor(cfg: Config, w: World)
    requires Clean(w.k.now) && !w.k.now.op.Gone?
    requires w.t.mode.Running? && w.t.locals.regs == w.k.regs
    ensures var w', r := OnEntry(cfg, w), w.k.regs;
            var n := r.arg1 % 0x1_0000_0000;
            if n == 1 || n == 2 then
              && w'.k == w.k.(regs := if cfg.nullify then r.(arg3 := 0) else r)
              && Erased(w'.t.log) == Erased(w.t.log) + [Write(n, Sent(cfg, r, w.k.mem, w.k.now.junk))]
            else
              w'.k == w.k && w'.t == w.t.(locals := w'.t.locals) && w'.t.locals.regs == r
  {
    LowHalf(w.k.regs.arg1);
    hide Sent, Erased, AsInt, OnEntry;
    CleanEntry(cfg, w);
    if !Traced(Fd(w.k.regs)) {
      UntracedEntry(cfg, w);
    }
  }

  lemma {:induction false} LowHalf(w: Word)
    ensures AsInt(w) == 1 <==> w % 0x1_0000_0000 == 1
    ensures AsInt(w) == 2 <==> w % 0x1_0000_0000 == 2
  {
  }

  lemma {:induction false} UntracedEntry(cfg: Config, w: World)
    requires !Traced(Fd(w.t.locals.regs))
    ensures OnEntry(cfg, w) == World(w.k, Noted(w.t))
  {
  }

  // At the exit stop of a traced write its length becomes the result.
  lemma {:induction false} CleanExit(cfg: Config, w: World)
    requires Clean(w.k.now) && !w.k.now.op.Gone?
    requires w.t.mode.Running? && w.t.locals.regs == w.k.regs
    ensures var w', l := OnExit(cfg, w), w.t.locals;
            && w'.t.mode.Running?
            && w'.k == w.k.(regs := if (l.wfd == 1 || l.wfd == 2) && cfg.nullify
                                    then w.k.regs.(retn := l.wlen) else w.k.regs)
            && w'.t.log == w.t.log
  {
    hide Guarded;
    CleanGuarded(World(w.k, Faked(cfg, w.t)), SETREGS);
  }

  // ---- results

  // The nullified write puts nothing on the terminal, whatever the kernel answers.
  lemma {:induction false} NullifiedWritesNothing(r: Regs, m: Memory, answer: Answer)
    ensures Written(r.(arg3 := 0), m, answer) == []
  {
  }

  lemma {:induction false} ShownSnoc(outputs: seq<Output>, o: Output)
    ensures Shown(outputs + [o]) == Shown(outputs) + if Traced(o.fd) then [Write(o.fd, o.data)] else []
    ensures Muted(outputs + [o]) == Muted(outputs) + [if Traced(o.fd) then Output(o.fd, []) else o]
  {
    assert (outputs + [o])[..|outputs|] == outputs;
  }

  lemma {:induction false} AnsweredSnoc(rs: seq<Regs>, r: Regs)
    ensures AllAnswered(rs + [r]) == AllAnswered(rs) + [Answered(r)]
  {
  }

  // ---- one event of both runs

  // An iteration at which nothing fails: fetch the registers, act, resume.
  lemma {:induction false} CleanIterate(cfg: Config, w: World, d: Kernel) returns (w1: World)
    requires Following(w, d) && w.k.todo != [] && !w.k.todo[0].op.Gone? && Clean(w.k.todo[0])
    ensures w1 == World(Wait(w.k), w.t.(childExited := true, locals := w.t.locals.(regs := Wait(w.k).regs)))
    ensures AtStop(w1, DirectStep(d), w.k.todo[0])
    ensures var w2 := OnStop(cfg, w1);
            w2.t.mode.Running? ==> Iterate(cfg, w) == Guarded(w2, SYSCALL)
  {
    WaitReachesStop(w, d);
    w1 := Guarded(World(Wait(w.k), w.t), GETREGS);
    hide Guarded, OnStop;
    assert Live(w.k.todo[0].status);
  }

  // What the next event adds to either terminal.
  ghost predicate Adds(cfg: Config, w: World, d: Kernel)
    requires w.k.todo != [] && d.todo != []
  {
    var e, d' := w.k.todo[0], DirectStep(d);
    && Erased(Iterate(cfg, w).t.log) == Erased(w.t.log) + SentBy(cfg, e)
    && Shown(d'.output) + InFlight(d') == Shown(d.output) + InFlight(d) + DueBy(e)
  }

  lemma {:induction false} EntryCorresponds(cfg: Config, w: World, d: Kernel)
    requires Following(w, d) && Corresponds(w, d) && cfg.nullify
    requires w.k.todo != [] && w.k.todo[0].op.WriteEntry? && Clean(w.k.todo[0])
    ensures Iterate(cfg, w).t.mode.Running? && Corresponds(Iterate(cfg, w), DirectStep(d))
    ensures Adds(cfg, w, d)
  {
    var e := w.k.todo[0];
    DirectStepCases(d);
    var w1 := CleanIterate(cfg, w, d);
    var d' := DirectStep(d);
    assert InFlight(d) == [];
    hide Iterate, OnEntry, Guarded, Erased, Sent, Due, DirectStep, Shown, Muted, AllAnswered;
    CleanEntry(cfg, w1);
    CleanGuarded(OnEntry(cfg, w1), SYSCALL);
    assert Shown(d.output) + InFlight(d') == Shown(d.output) + InFlight(d) + DueBy(e);
  }

  lemma {:induction false} ExitCorresponds(cfg: Config, w: World, d: Kernel)
    requires Following(w, d) && Corresponds(w, d) && cfg.nullify
    requires w.k.todo != [] && w.k.todo[0].op.WriteExit? && Clean(w.k.todo[0])
    ensures Iterate(cfg, w).t.mode.Running? && Corresponds(Iterate(cfg, w), DirectStep(d))
    ensures Adds(cfg, w, d)
  {
    var e := w.k.todo[0];
    DirectStepCases(d);
    var w1 := CleanIterate(cfg, w, d);
    var d', r := DirectStep(d), d.regs;
    var answer := TerminalAnswer(r, e.op.answer);
    var o := Output(Fd(r), Written(r, d.mem, answer));
    hide Iterate, OnExit, Guarded, Erased, Due, DirectStep, Shown, Muted, AllAnswered, Result;
    CleanExit(cfg, w1);
    CleanGuarded(OnExit(cfg, w1), SYSCALL);
    ShownSnoc(d.output, o);
    AnsweredSnoc(d.delivered, d'.regs);
    if Traced(Fd(r)) {
      DirectResult(r, d.mem);
      NullifiedWritesNothing(r, d.mem, e.op.answer);
    }
    assert Shown(d'.output) + InFlight(d') == Shown(d.output) + InFlight(d) + [];
    assert Erased(w.t.log) + [] == Erased(w.t.log);
  }

  lemma {:induction false} OtherCorresponds(cfg: Config, w: World, d: Kernel)
    requires Following(w, d) && Corresponds(w, d)
    requires w.k.todo != [] && w.k.todo[0].op.OtherStop? && Clean(w.k.todo[0])
    ensures Iterate(cfg, w).t.mode.Running? && Corresponds(Iterate(cfg, w), DirectStep(d))
    ensures Adds(cfg, w, d)
  {
    DirectStepCases(d);
    var w1 := CleanIterate(cfg, w, d);
    hide Iterate, Guarded, Erased, Due, DirectStep, Shown, Muted, AllAnswered;
    CleanGuarded(w1, SYSCALL);
    assert Shown(d.output) + InFlight(d) + [] == Shown(d.output) + InFlight(d);
    assert Erased(w.t.log) + [] == Erased(w.t.log);
  }

  lemma {:induction false} GoneCorresponds(cfg: Config, w: World, d: Kernel)
    requires Following(w, d) && Corresponds(w, d) && Begun(w)
    requires w.k.todo != [] && w.k.todo[0].op.Gone?
    ensures var w' := Iterate(cfg, w);
            && w'.t.mode == Returned(w.k.todo[0].status)
            && w'.k.todo == [] && Corresponds(w', DirectStep(d)) && Adds(cfg, w, d)
  {
    hide Erased, Shown, Muted, AllAnswered, Due, Iterate, DirectStep, Close;
    var status := w.k.todo[0].status;
    DirectStepCases(d);
    IterateAtEnd(cfg, w);
    ClosePayloads(w.t);
    ClosePayloads(Close(w.t));
    assert Shown(d.output) + InFlight(d) + [] == Shown(d.output) + InFlight(d);
    assert Erased(w.t.log) + [] == Erased(w.t.log);
  }

  lemma {:induction false} IterateAtEnd(cfg: Config, w: World)
    requires w.t.mode.Running? && w.k.todo != [] && w.k.todo[0].op.Gone? && Begun(w)
    requires !Live(w.k.todo[0].status)
    ensures var w', status := Iterate(cfg, w), w.k.todo[0].status;
            && w'.k == w.k.(todo := w.k.todo[1..], now := w.k.todo[0], stopped := false)
            && w'.t == if status == 0 then Finished(w.t, 0) else Finished(Close(w.t), status)
  {
  }

  // ---- whole runs

  lemma {:induction false} OneCorresponds(cfg: Config, w: World, d: Kernel)
    requires Following(w, d) && Corresponds(w, d) && cfg.nullify
    requires w.k.todo != [] && !w.k.todo[0].op.Gone? && Clean(w.k.todo[0])
    ensures Iterate(cfg, w).t.mode.Running? && Corresponds(Iterate(cfg, w), DirectStep(d))
    ensures Adds(cfg, w, d)
  {
    hide Iterate, Corresponds, Following, DirectStep, Clean, Adds;
    match w.k.todo[0].op {
      case WriteEntry(_, _) => EntryCorresponds(cfg, w, d);
      case WriteExit(_) => ExitCorresponds(cfg, w, d);
      case OtherStop(_) => OtherCorresponds(cfg, w, d);
    }
  }

  lemma {:induction false} LoopCorresponds(cfg: Config, w: World, d: Kernel)
    requires Following(w, d) && Begun(w) && Corresponds(w, d) && AllClean(w.k.todo) && cfg.nullify
    ensures var w', d' := Loop(cfg, w), Direct(d);
            && w'.k.todo == [] && Corresponds(w', d')
            && Erased(w'.t.log) == Erased(w.t.log) + SentAll(cfg, w.k.todo)
            && Shown(d'.output) + InFlight(d') == Shown(d.output) + InFlight(d) + DueAll(w.k.todo)
            && w'.t.mode == (if Ends(w.k.todo) then Returned(LastStatus(w.k.todo)) else Running)
    decreases |w.k.todo|
  {
    hide Iterate, Corresponds, DirectStep, Erased, SentBy, DueBy, Shown, InFlight, Clean;
    if w.k.todo == [] {
      LoopStopped(cfg, w);
      assert Erased(w.t.log) + [] == Erased(w.t.log);
      assert Shown(d.output) + InFlight(d) + [] == Shown(d.output) + InFlight(d);
    } else {
      var e, es, w', d' := w.k.todo[0], w.k.todo[1..], Iterate(cfg, w), DirectStep(d);
      LoopStep(cfg, w);
      assert AllClean(es);
      assert Direct(d) == Direct(d');
      ConcatAssoc(Erased(w.t.log), SentBy(cfg, e), SentAll(cfg, es));
      ConcatAssoc(Shown(d.output) + InFlight(d), DueBy(e), DueAll(es));
      if e.op.Gone? {
        GoneCorresponds(cfg, w, d);
        GoneIsLast(w.k.todo, d.inWrite);
        DirectStepCases(d);
        LoopStopped(cfg, w');
        assert Erased(w'.t.log) + [] == Erased(w'.t.log);
        assert Shown(d'.output) + InFlight(d') + [] == Shown(d'.output) + InFlight(d');
      } else {
        IterateFollows(cfg, w, d);
        OneCorresponds(cfg, w, d);
        LoopCorresponds(cfg, w', d');
      }
    }
  }

  // The tracee's end has been reported.
  predicate Ends(es: seq<Event>) {
    es != [] && es[|es| - 1].op.Gone?
  }

  function LastStatus(es: seq<Event>): nat
    requires es != []
  {
    es[|es| - 1].status
  }

  lemma {:induction false} GoneIsLast(es: seq<Event>, inWrite: bool)
    requires Disciplined(es, inWrite) && es != [] && es[0].op.Gone?
    ensures |es| == 1
  {
  }

  // ---- when the results are those of the direct run

  // Every traced write that the direct run leaves has returned its length.
  predicate AllTruthful(rs: seq<Regs>) {
    forall i :: 0 <= i < |rs| && Traced(Fd(rs[i])) ==> rs[i].retn == rs[i].arg3
  }

  // The buffer of this write is mapped, or else its length is the error code for a
  // buffer that is not.
  ghost predicate Told(r: Regs, m: Memory) {
    Traced(Fd(r)) ==>
      RegionMapped(m, r.arg2, r.arg3) || (r.arg2 !in m.bytes && r.arg3 == TWO_64 - EFAULT)
  }

  // So it is for every write that is left from here on.
  ghost predicate AllTold(d: Kernel)
    decreases |d.todo|
  {
    d.todo == [] || (
      && (d.todo[0].op.WriteExit? ==> Told(d.regs, d.mem))
      && (DirectStepCases(d); AllTold(DirectStep(d))))
  }

  lemma {:induction false} TruthfulExactly(d: Kernel)
    requires Disciplined(d.todo, d.inWrite)
    ensures AllTruthful(Direct(d).delivered) <==> AllTruthful(d.delivered) && AllTold(d)
    decreases |d.todo|
  {
    if d.todo != [] {
      DirectStepCases(d);
      var d' := DirectStep(d);
      hide DirectStep, Told, Result;
      TruthfulExactly(d');
      if d.todo[0].op.WriteExit? {
        DirectResult(d.regs, d.mem);
        ToldTruthful(d.delivered, d.regs, d.mem, d'.regs);
      }
    }
  }

  lemma {:induction false} ToldTruthful(rs: seq<Regs>, r: Regs, m: Memory, r': Regs)
    requires r' == r.(retn := r'.retn)
    requires Traced(Fd(r)) ==> r'.retn == Result(r, m, Takes(r.arg3))
    ensures AllTruthful(rs + [r']) <==> AllTruthful(rs) && Told(r, m)
  {
    DirectResult(r, m);
    hide Result, RegionMapped;
    var all := rs + [r'];
    assert all[|rs|] == r';
    assert forall i :: 0 <= i < |rs| ==> all[i] == rs[i];
  }

  lemma {:induction false} AnsweredIsClobbered(rs: seq<Regs>)
    ensures AllAnswered(rs) == AllClobbered(rs) <==> AllTruthful(rs)
  {
    if AllAnswered(rs) == AllClobbered(rs) {
      forall i | 0 <= i < |rs| && Traced(Fd(rs[i])) ensures rs[i].retn == rs[i].arg3 {
        assert AllAnswered(rs)[i] == AllClobbered(rs)[i];
      }
    }
  }

  // ---- the main theorem

  // Run any program under the tracer, its requests succeeding, and run it without.
  // The kernel adds nothing to fd 1 or 2 and treats every other descriptor as in
  // the direct run. The tracee comes out of each write with the registers of the
  // direct run, but that a traced write loses arg3 and always returns its length,
  // which is the direct result if and only if every buffer was mapped. Every
  // traced write is shown once, in order, and the log with its marks erased is the
  // output of the direct run if and only if every write arrives. The status
  // returned is the tracee's.
  lemma {:induction false} TracedRunIsDirectRun(cfg: Config, w: World)
    requires Launched(w) && AllClean(w.k.todo) && cfg.nullify
    requires w.k.output == [] && w.k.delivered == []
    ensures var w', d := Program(cfg, w), Direct(w.k);
            && w'.k.todo == []
            && w'.k.output == Muted(d.output)
            && w'.k.delivered == AllAnswered(d.delivered)
            && (w'.k.delivered == AllClobbered(d.delivered) <==> AllTold(w.k))
            && w'.t.mode == (if Ends(w.k.todo) then Returned(LastStatus(w.k.todo)) else Running)
            && Erased(w'.t.log) == SentAll(cfg, w.k.todo)
            && Shown(d.output) + InFlight(d) == DueAll(w.k.todo)
            && |Erased(w'.t.log)| == |Shown(d.output) + InFlight(d)|
            && (Erased(w'.t.log) == Shown(d.output) + InFlight(d) <==> AllArrive(cfg, w.k.todo))
  {
    LaunchedFollows(w);
    LoopCorresponds(cfg, w, w.k);
    AllSentIsDue(cfg, w.k.todo);
    ProgramKernel(cfg, w);
    TruthfulExactly(w.k);
    AnsweredIsClobbered(Direct(w.k).delivered);
    assert InFlight(w.k) == [] && AllTruthful(w.k.delivered);
    hide Loop, Program, SentAll, DueAll, Direct, AllArrive, AllTold, AllTruthful;
    assert [] + SentAll(cfg, w.k.todo) == SentAll(cfg, w.k.todo);
    assert [] + [] + DueAll(w.k.todo) == DueAll(w.k.todo);
  }

  lemma {:induction false} ProgramKernel(cfg: Config, w: World)
    ensures Program(cfg, w).k == Loop(cfg, w).k && Program(cfg, w).t.mode == Loop(cfg, w).t.mode
    ensures Erased(Program(cfg, w).t.log) == Erased(Loop(cfg, w).t.log)
  {
    hide Loop;
    ClosePayloads(Loop(cfg, w).t);
  }

  // The direct run has shown all of this itself exactly when it did not end inside
  // a traced write.
  lemma {:induction false} ShownAlone(cfg: Config, w: World)
    requires Launched(w) && AllClean(w.k.todo) && AllArrive(cfg, w.k.todo) && cfg.nullify
    requires w.k.output == [] && w.k.delivered == []
    ensures var d := Direct(w.k);
            Erased(Program(cfg, w).t.log) == Shown(d.output) <==> !(d.inWrite && Traced(Fd(d.regs)))
  {
    TracedRunIsDirectRun(cfg, w);
    var d := Direct(w.k);
    hide Program, Direct, AllArrive, Shown, AllTold;
    assert |Shown(d.output) + InFlight(d)| == |Shown(d.output)| + |InFlight(d)|;
    assert InFlight(d) == [] ==> Shown(d.output) + InFlight(d) == Shown(d.output);
  }

  // ---- in paged memory

  ghost predicate PagedEvent(e: Event, p: nat)
    requires PageSize(p)
  {
    e.op.WriteEntry? ==> Paged(e.op.mem, p) && e.op.mem.faults == map[]
  }

  // Every traced write can be delivered.
  ghost predicate AllDeliverable(cfg: Config, es: seq<Event>) {
    forall i :: 0 <= i < |es| && es[i].op.WriteEntry? && Traced(Fd(es[i].op.regs)) ==>
      Deliverable(cfg, es[i].op.regs, es[i].op.mem, es[i].junk)
  }

  // The condition of the main theorem as a caller can check it, without reference
  // to what the reader returns: without a copy file, that no head of a traced,
  // non-empty buffer overhangs.
  lemma {:induction false} PagedRunIsDirectRun(cfg: Config, w: World, p: nat)
    requires Launched(w) && AllClean(w.k.todo) && cfg.nullify
    requires w.k.output == [] && w.k.delivered == []
    requires PageSize(p) && forall i :: 0 <= i < |w.k.todo| ==> PagedEvent(w.k.todo[i], p)
    ensures Erased(Program(cfg, w).t.log) == Shown(Direct(w.k).output) + InFlight(Direct(w.k))
            <==> AllDeliverable(cfg, w.k.todo)
    ensures !cfg.copying ==>
              (AllDeliverable(cfg, w.k.todo) <==>
               forall i :: 0 <= i < |w.k.todo| && w.k.todo[i].op.WriteEntry? ==>
                 var r := w.k.todo[i].op.regs;
                 Traced(Fd(r)) && r.arg3 != 0 ==> !Overhangs(w.k.todo[i].op.mem, r.arg2))
  {
    TracedRunIsDirectRun(cfg, w);
    var es := w.k.todo;
    hide Program, Direct, Shown, InFlight, Arrives, Paged, AllClean, Launched, AllTold, SentAll, DueAll, Overhangs;
    forall i | 0 <= i < |es| && es[i].op.WriteEntry? && Traced(Fd(es[i].op.regs))
      ensures EventArrives(cfg, es[i]) <==> Deliverable(cfg, es[i].op.regs, es[i].op.mem, es[i].junk)
    {
      assert PagedEvent(es[i], p);
      ArrivesInPages(cfg, es[i].op.regs, es[i].op.mem, es[i].junk, p);
    }
    assert AllArrive(cfg, es) <==> AllDeliverable(cfg, es) by {
      hide Deliverable;
      if AllDeliverable(cfg, es) {
        forall i | 0 <= i < |es| ensures EventArrives(cfg, es[i]) {
        }
      } else {
        var i :| 0 <= i < |es| && es[i].op.WriteEntry? && Traced(Fd(es[i].op.regs))
                 && !Deliverable(cfg, es[i].op.regs, es[i].op.mem, es[i].junk);
        assert !EventArrives(cfg, es[i]);
      }
    }
  }
}
