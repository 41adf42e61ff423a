// What the terminal shows over whole runs of errmark --color, however they end.

module Painting {
  import opened Base
  import opened RemoteMemory
  import opened RemoteRead
  import opened Marks
  import opened Runs
  import opened Colors
  import opened Tracee
  import opened Tracer
  import opened LogFacts
  import opened LoopFacts
  import opened Arrival
  import opened Transparency
  import opened Terminal

  // A traced payload holds no escape sequence of its own, and there is none at all
  // if the marker ignores its write.
  predicate Showable(cfg: Config, e: Event) {
    e.op.WriteEntry? && Traced(Fd(e.op.regs)) ==>
      var sent := Sent(cfg, e.op.regs, e.op.mem, e.junk);
      && ESC !in sent
      && (e.op.regs.arg2 == 0 || e.op.regs.arg3 == 0xffff_ffff_ffff_ffff ==> sent == [])
  }

  predicate AllShowable(cfg: Config, es: seq<Event>) {
    forall i :: 0 <= i < |es| ==> Showable(cfg, es[i])
  }

  datatype Hue = Hue(bright: bool, color: nat)

  function HueMarks(h: Hue): Table
    requires h.color < 8
  {
    ColorMarks(h.bright, h.color)
  }

  function Look(fd: int, h: Hue): Rendition {
    LookOf(fd, h.bright, h.color)
  }

  // The log shows each payload in its descriptor's look and leaves `look` behind.
  ghost predicate PaintedAs(log: seq<Item>, h: Hue, look: Rendition)
    requires h.color < 8
  {
    Render(BLANK, Bytes(HueMarks(h), log)) == Screen(Ground, look, Picture(Erased(log), h.bright, h.color))
  }

  // While the run goes on the look is that of the current descriptor, and at its
  // end, aborted or not, the default.
  ghost predicate Painted(t: State, h: Hue)
    requires h.color < 8
  {
    && (t.markState || t.curFd == -1)
    && PaintedAs(t.log, h, if t.mode.Returned? || t.mode.Aborted? then DEFAULT else Look(t.curFd, h))
  }

  // ---- marks and payloads

  lemma {:induction false} CloseOfPainted(t: State, h: Hue)
    requires h.color < 8 && (t.markState || t.curFd == -1)
    requires PaintedAs(t.log, h, Look(t.curFd, h)) || PaintedAs(t.log, h, DEFAULT)
    ensures PaintedAs(Close(t).log, h, DEFAULT)
  {
    var marks, items := HueMarks(h), SwitchFrom(t.curFd);
    ClosePayloads(t);
    BytesConcat(marks, t.log, items);
    RenderConcat(BLANK, Bytes(marks, t.log), Bytes(marks, items));
    RenderClose(Render(BLANK, Bytes(marks, t.log)), t.curFd, h.bright, h.color);
  }

  lemma {:induction false} GuardedPaints(w: World, request: Request, h: Hue)
    requires h.color < 8 && w.t.mode.Running? && Painted(w.t, h)
    ensures Painted(Guarded(w, request).t, h)
  {
    hide Render, Bytes, Erased, Picture, HueMarks;
    CloseOfPainted(w.t, h);
  }

  lemma {:induction false} MarkedPaints(t: State, h: Hue)
    requires h.color < 8 && t.mode.Running? && Painted(t, h) && Traced(t.locals.wfd)
    ensures Painted(Marked(Opened(t)), h)
  {
    var o, l, marks := Opened(t), t.locals, HueMarks(h);
    var items := BeforeItems(o.curFd, l.wfd, l.waddr, l.wlen);
    MarkedPayloads(t);
    var s := Render(BLANK, Bytes(marks, o.log));
    BytesConcat(marks, o.log, items);
    RenderConcat(BLANK, Bytes(marks, o.log), Bytes(marks, items));
    RenderNothing(s, marks);
    hide Render, Bytes, Erased, Picture, BeforeItems;
    if Switches(o.curFd, l.wfd, l.waddr, l.wlen) {
      RenderSwitch(s, o.curFd, l.wfd, h.bright, h.color);
      SameSwitch(o.curFd, l.wfd, l.waddr, l.wlen);
    } else {
      NoSwitch(o.curFd, l.wfd, l.waddr, l.wlen);
    }
  }

  lemma {:induction false} RenderNothing(s: Screen, marks: Table)
    ensures Render(s, Bytes(marks, [])) == s
  {
  }

  lemma {:induction false} SameSwitch(cur: int, fd: int, buf: Word, len: Word)
    requires Switches(cur, fd, buf, len)
    ensures BeforeItems(cur, fd, buf, len) == BeforeItems(cur, fd, SOME_BUFFER, SOME_LENGTH)
  {
  }

  lemma {:induction false} NoSwitch(cur: int, fd: int, buf: Word, len: Word)
    requires !Switches(cur, fd, buf, len)
    ensures BeforeItems(cur, fd, buf, len) == []
  {
  }

  lemma {:induction false} PayloadPaints(log: seq<Item>, w: Write, h: Hue, cur: int)
    requires h.color < 8 && PaintedAs(log, h, Look(cur, h)) && Traced(w.fd)
    requires ESC !in w.data && (cur == w.fd || w.data == [])
    ensures PaintedAs(log + [Payload(w.fd, w.data)], h, Look(cur, h))
  {
    var marks, s := HueMarks(h), Render(BLANK, Bytes(HueMarks(h), log));
    BytesSnoc(marks, log, Payload(w.fd, w.data));
    RenderConcat(BLANK, Bytes(marks, log), w.data);
    RenderPlain(s, w.data);
    ErasedPayload(log, w);
    hide Render, Bytes, Erased, HueMarks;
    PictureSnoc(Erased(log), w, h.bright, h.color);
    assert w.data == [] ==> Cells(w.data, s.look) == Cells(w.data, Look(w.fd, h)) == [];
  }

  lemma {:induction false} PictureSnoc(ws: seq<Write>, w: Write, bright: bool, color: nat)
    requires Traced(w.fd)
    ensures Picture(ws + [w], bright, color) == Picture(ws, bright, color) + Cells(w.data, LookOf(w.fd, bright, color))
  {
    Last(ws, w);
  }

  // ---- iterations

  lemma {:induction false} EntryPaints(cfg: Config, w: World, d: Kernel, h: Hue, e: Event)
    requires h.color < 8 && AtStop(w, d, e) && e.op.WriteEntry? && Painted(w.t, h) && Showable(cfg, e)
    ensures Painted(OnEntry(cfg, w).t, h)
  {
    hide Render, Bytes, Erased, Picture, HueMarks, Read, Filled, Marked, Opened, Guarded, PaintedAs;
    var t, r := Noted(w.t), e.op.regs;
    if Traced(t.locals.wfd) {
      MarkedPaints(t, h);
      MarkedKeeps(t);
      MarkedFd(t);
      var p := Nullified(cfg, Marked(Opened(t)));
      GuardedPaints(World(w.k, p), SETREGS, h);
      GuardedKeeps(World(w.k, p), SETREGS);
      GuardedLog(World(w.k, p), SETREGS);
      var w1 := Guarded(World(w.k, p), SETREGS);
      if w1.t.mode.Running? {
        PayloadPaints(w1.t.log, Write(Fd(r), Sent(cfg, r, e.op.mem, e.junk)), h, w1.t.curFd);
      }
    }
  }

  lemma {:induction false} MarkedFd(t: State)
    ensures Traced(t.locals.wfd) && !Ignored(t.locals.waddr, t.locals.wlen) ==>
              Marked(Opened(t)).curFd == t.locals.wfd
  {
  }

  lemma {:induction false} StopPaints(cfg: Config, w: World, d: Kernel, h: Hue, e: Event)
    requires h.color < 8 && AtStop(w, d, e) && Painted(w.t, h) && Showable(cfg, e)
    ensures Painted(OnStop(cfg, w).t, h)
  {
    hide PaintedAs, Guarded;
    match e.op {
      case WriteEntry(_, _) => EntryPaints(cfg, w, d, h, e);
      case WriteExit(_) =>
        GuardedPaints(World(w.k, Faked(cfg, w.t)), SETREGS, h);
      case OtherStop(_) =>
    }
  }

  lemma {:induction false} FinishedPaints(t: State, status: nat, h: Hue)
    requires h.color < 8 && t.mode.Running? && Painted(t, h)
    ensures Painted(Finished(t, status), h) && Painted(Finished(Close(t), status), h)
  {
    hide PaintedAs;
    CloseOfPainted(t, h);
    CloseOfPainted(Close(t), h);
  }

  lemma {:induction false} IteratePaints(cfg: Config, w: World, d: Kernel, h: Hue)
    requires h.color < 8 && Following(w, d) && Painted(w.t, h) && w.k.todo != [] && Showable(cfg, w.k.todo[0])
    requires Begun(w)
    ensures Painted(Iterate(cfg, w).t, h)
  {
    var e, k := w.k.todo[0], Wait(w.k);
    FinishedPaints(w.t, e.status, h);
    if GoesOn(e.status) {
      GuardedPaints(World(k, w.t), GETREGS, h);
      var w1 := Guarded(World(k, w.t), GETREGS);
      if w1.t.mode.Running? {
        FinishedPaints(w1.t, 0, h);
      }
      if !e.op.Gone? && e.getErr == 0 {
        WaitReachesStop(w, d);
        hide Guarded, OnStop, Painted, Disciplined, Showable;
        StopPaints(cfg, w1, DirectStep(d), h, e);
        var w2 := OnStop(cfg, w1);
        if w2.t.mode.Running? {
          GuardedPaints(w2, SYSCALL, h);
        }
      }
    }
  }

  lemma {:induction false} LoopPaints(cfg: Config, w: World, d: Kernel, h: Hue)
    requires h.color < 8 && Following(w, d) && Begun(w) && Painted(w.t, h) && AllShowable(cfg, w.k.todo)
    ensures Painted(Loop(cfg, w).t, h)
    decreases |w.k.todo|
  {
    hide Iterate, Painted, DirectStep, Disciplined, Showable;
    if w.k.todo != [] {
      LoopStep(cfg, w);
      IterateFollows(cfg, w, d);
      IteratePaints(cfg, w, d, h);
      var w' := Iterate(cfg, w);
      if w'.t.mode.Running? {
        LoopPaints(cfg, w', DirectStep(d), h);
      } else {
        LoopStopped(cfg, w');
      }
    }
  }

  // However a run ends and whatever fails: every byte put out so far is shown in
  // the look of its descriptor, in the order written and nothing besides; the
  // terminal is in the look of the current descriptor while the run goes on, and
  // back in its default when the program has returned, however often the last end
  // mark was repeated, and when it has aborted.
  lemma {:induction false} ProgramRenders(cfg: Config, w: World, bright: bool, color: nat)
    requires Launched(w) && color < 8 && AllShowable(cfg, w.k.todo)
    ensures var t := Program(cfg, w).t;
            Render(BLANK, Bytes(ColorMarks(bright, color), t.log))
            == Screen(Ground,
                      if t.mode.Returned? || t.mode.Aborted? then DEFAULT else LookOf(t.curFd, bright, color),
                      Picture(Erased(t.log), bright, color))
  {
    var h := Hue(bright, color);
    LaunchedFollows(w);
    assert Painted(w.t, h);
    LoopPaints(cfg, w, w.k, h);
    CloseOfPainted(Loop(cfg, w).t, h);
    hide Loop, Render, Bytes, Erased, Picture;
  }

  // The same for the whole tool: the tracee's direct output, coloured.
  lemma {:induction false} ColoredDirectRun(cfg: Config, w: World, bright: bool, color: nat)
    requires Launched(w) && AllClean(w.k.todo) && AllArrive(cfg, w.k.todo) && cfg.nullify && color < 8
    requires w.k.output == [] && w.k.delivered == []
    requires Ends(w.k.todo) && AllShowable(cfg, w.k.todo)
    ensures Render(BLANK, Bytes(ColorMarks(bright, color), Program(cfg, w).t.log))
            == Screen(Ground, DEFAULT,
                      Picture(Shown(Direct(w.k).output) + InFlight(Direct(w.k)), bright, color))
  {
    hide AllArrive, AllShowable, Program, Direct, Render, Picture, Bytes, AllTold;
    TracedRunIsDirectRun(cfg, w);
    ProgramRenders(cfg, w, bright, color);
  }

  // ---- the device itself, when a buffered rest never arrives

  // A payload without ESC and a mark that is not set leave the rendition alone.
  lemma {:induction false} PlainRest(marks: Table, rest: seq<Item>)
    requires NoEscape(Erased(rest)) && forall i :: 0 <= i < |rest| ==> MarkText(marks, rest[i]).None?
    ensures ESC !in Bytes(marks, rest)
  {
    if rest != [] {
      var init, last := rest[..|rest| - 1], rest[|rest| - 1];
      assert rest == init + [last];
      ErasedConcat(init, [last]);
      OneErased(last);
      assert forall i :: 0 <= i < |Erased(init)| ==> Erased(init)[i] == Erased(rest)[i];
      PlainRest(marks, init);
      if last.Payload? {
        assert Erased(rest)[|Erased(init)|] == Write(last.fd, last.data);
      }
    }
  }

  lemma {:induction false} OneErased(item: Item)
    ensures Erased([item]) == if item.Payload? then [Write(item.fd, item.data)] else []
  {
    assert [item][..0] == [] && Erased([]) == [];
  }

  lemma {:induction false} RenderGround(h: Hue, log: seq<Item>)
    requires h.color < 8 && NoEscape(Erased(log))
    ensures Render(BLANK, Bytes(HueMarks(h), log)).mode.Ground?
  {
    if log != [] {
      var marks, init, last := HueMarks(h), log[..|log| - 1], log[|log| - 1];
      assert log == init + [last];
      ErasedConcat(init, [last]);
      OneErased(last);
      assert forall i :: 0 <= i < |Erased(init)| ==> Erased(init)[i] == Erased(log)[i];
      RenderGround(h, init);
      var s := Render(BLANK, Bytes(marks, init));
      RenderConcat(BLANK, Bytes(marks, init), ItemBytes(marks, last));
      match last {
        case Payload(fd, data) =>
          assert Erased(log)[|Erased(init)|] == Write(fd, data);
          RenderPlain(s, data);
        case Start(fd) =>
          if fd == 2 {
            RenderEscStart(s, h.bright, h.color);
          }
        case End(fd) =>
          if fd == 2 {
            RenderEscEnd(s);
          }
      }
    }
  }

  // Whatever part of the log has reached the device, if no mark that is set is
  // missing then the device has the rendition of the whole log.
  lemma {:induction false} DeviceLooksSettled(h: Hue, log: seq<Item>, device: seq<byte>)
    requires h.color < 8 && NoEscape(Erased(log)) && device <= Bytes(HueMarks(h), log)
    requires |Bytes(HueMarks(h), Settled(HueMarks(h), log))| <= |device|
    ensures Render(BLANK, device).mode.Ground?
    ensures Render(BLANK, device).look == Render(BLANK, Bytes(HueMarks(h), log)).look
  {
    hide Render, Bytes, Erased, Settled, HueMarks;
    var marks := HueMarks(h);
    SettledIsPrefix(marks, log);
    var n := |Settled(marks, log)|;
    var front, rest := log[..n], log[n..];
    assert log == front + rest;
    BytesConcat(marks, front, rest);
    ErasedConcat(front, rest);
    NoEscapeSplit(Erased(front), Erased(rest));
    assert forall i :: 0 <= i < |rest| ==> rest[i] == log[n + i];
    PlainRest(marks, rest);
    RenderGround(h, front);
    PrefixLooksAlike(Bytes(marks, front), Bytes(marks, rest), device);
  }

  lemma {:induction false} NoEscapeSplit(a: seq<Write>, b: seq<Write>)
    requires NoEscape(a + b)
    ensures NoEscape(a) && NoEscape(b)
  {
    assert forall i :: 0 <= i < |a| ==> a[i] == (a + b)[i];
    assert forall i :: 0 <= i < |b| ==> b[i] == (a + b)[|a| + i];
  }

  // Any amount of plain text leaves the rendition as it is.
  lemma {:induction false} PrefixLooksAlike(a: seq<byte>, b: seq<byte>, p: seq<byte>)
    requires Render(BLANK, a).mode.Ground? && ESC !in b && |a| <= |p| && p <= a + b
    ensures Render(BLANK, p).mode.Ground? && Render(BLANK, p).look == Render(BLANK, a + b).look
  {
    hide Render;
    var c := p[|a|..];
    assert c == b[..|c|] && p == a + c;
    RenderConcat(BLANK, a, b);
    RenderConcat(BLANK, a, c);
    RenderPlain(Render(BLANK, a), b);
    RenderPlain(Render(BLANK, a), c);
  }

  // What is put out over a run has no escape sequence if no payload has.
  lemma {:induction false} IterateErases(cfg: Config, w: World, d: Kernel)
    requires Following(w, d) && w.k.todo != [] && Begun(w)
    ensures var log' := Erased(Iterate(cfg, w).t.log);
            log' == Erased(w.t.log) || log' == Erased(w.t.log) + SentBy(cfg, w.k.todo[0])
  {
    var e, k := w.k.todo[0], Wait(w.k);
    ClosePayloads(w.t);
    ClosePayloads(Close(w.t));
    if GoesOn(e.status) {
      GuardedErases(World(k, w.t), GETREGS);
      var w1 := Guarded(World(k, w.t), GETREGS);
      ClosePayloads(w1.t);
      if !e.op.Gone? && e.getErr == 0 {
        WaitReachesStop(w, d);
        hide Guarded, OnStop, Disciplined, Erased, SentBy;
        StopErases(cfg, w1, DirectStep(d), e);
        GuardedErases(OnStop(cfg, w1), SYSCALL);
      }
    }
  }

  lemma {:induction false} GuardedErases(w: World, request: Request)
    ensures Erased(Guarded(w, request).t.log) == Erased(w.t.log)
  {
    hide Erased;
    ClosePayloads(w.t);
  }

  lemma {:induction false} StopErases(cfg: Config, w: World, d: Kernel, e: Event)
    requires AtStop(w, d, e)
    ensures var log' := Erased(OnStop(cfg, w).t.log);
            log' == Erased(w.t.log) || log' == Erased(w.t.log) + SentBy(cfg, e)
  {
    hide Erased, Guarded, Read, Filled, Marked, Opened;
    match e.op {
      case WriteEntry(r, m) =>
        var t := Noted(w.t);
        MarkedPayloads(t);
        MarkedKeeps(t);
        var p := Nullified(cfg, Marked(Opened(t)));
        GuardedErases(World(w.k, p), SETREGS);
        GuardedKeeps(World(w.k, p), SETREGS);
        var w1 := Guarded(World(w.k, p), SETREGS);
        ErasedPayload(w1.t.log, Write(Fd(r), Sent(cfg, r, m, e.junk)));
      case WriteExit(_) =>
        GuardedErases(World(w.k, Faked(cfg, w.t)), SETREGS);
      case OtherStop(_) =>
    }
  }

  lemma {:induction false} LoopHasNoEscape(cfg: Config, w: World, d: Kernel)
    requires Following(w, d) && Begun(w) && AllShowable(cfg, w.k.todo) && NoEscape(Erased(w.t.log))
    ensures NoEscape(Erased(Loop(cfg, w).t.log))
    decreases |w.k.todo|
  {
    hide Iterate, DirectStep, Disciplined, Erased;
    if w.k.todo != [] {
      LoopStep(cfg, w);
      IterateFollows(cfg, w, d);
      IterateErases(cfg, w, d);
      assert Showable(cfg, w.k.todo[0]);
      assert NoEscape(SentBy(cfg, w.k.todo[0]));
      var w' := Iterate(cfg, w);
      if w'.t.mode.Running? {
        LoopHasNoEscape(cfg, w', DirectStep(d));
      } else {
        LoopStopped(cfg, w');
      }
    }
  }

  // The device at any moment, and after abort() in particular: the terminal is in
  // the look of the current descriptor, or in its default if the run has ended,
  // whatever part of the payload is still in the buffer.
  lemma {:induction false} DeviceIsRestored(cfg: Config, w: World, bright: bool, color: nat, device: seq<byte>)
    requires Launched(w) && color < 8 && AllShowable(cfg, w.k.todo)
    requires var marks, log := ColorMarks(bright, color), Program(cfg, w).t.log;
             device <= Bytes(marks, log) && |Bytes(marks, Settled(marks, log))| <= |device|
    ensures var t := Program(cfg, w).t;
            && Render(BLANK, device).mode.Ground?
            && Render(BLANK, device).look
               == if t.mode.Returned? || t.mode.Aborted? then DEFAULT else LookOf(t.curFd, bright, color)
  {
    LaunchedFollows(w);
    LoopHasNoEscape(cfg, w, w.k);
    ProgramKernel(cfg, w);
    ProgramRenders(cfg, w, bright, color);
    hide Program, Loop;
    DeviceLooksSettled(Hue(bright, color), Program(cfg, w).t.log, device);
  }
}
