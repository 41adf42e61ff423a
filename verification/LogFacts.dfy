// What is on the terminal after any run, however the run ends and whichever
// requests fail on the way: bracketed runs, and the final end mark repeated a
// fixed number of times.

module LogFacts {
  import opened Base
  import opened RemoteMemory
  import opened RemoteRead
  import opened Marks
  import opened Runs
  import opened Tracee
  import opened Tracer

  // The log with its marks erased.
  function Erased(log: seq<Item>): seq<Write> {
    if log == [] then []
    else
      Erased(log[..|log| - 1])
      + match log[|log| - 1]
        case Payload(fd, data) => [Write(fd, data)]
        case _ => []
  }

  lemma {:induction false} ErasedConcat(a: seq<Item>, b: seq<Item>)
    ensures Erased(a + b) == Erased(a) + Erased(b)
  {
    if b == [] {
      assert a + b == a;
    } else {
      var b', last := b[..|b| - 1], b[|b| - 1];
      assert (a + b)[..|a + b| - 1] == a + b';
      ErasedConcat(a, b');
    }
  }

  lemma {:induction false} ErasedPayload(log: seq<Item>, w: Write)
    ensures Erased(log + [Payload(w.fd, w.data)]) == Erased(log) + [w]
  {
    assert (log + [Payload(w.fd, w.data)])[..|log|] == log;
  }

  lemma {:induction false} ErasedMarks(cur: int, fd: int, buf: Word, len: Word)
    ensures Erased(SwitchFrom(cur)) == [] && Erased(BeforeItems(cur, fd, buf, len)) == []
  {
    assert Erased([End(cur)]) == [] && Erased([Start(fd)]) == [];
    ErasedConcat(SwitchFrom(cur), SwitchTo(fd));
  }

  lemma {:induction false} ClosePayloads(t: State)
    ensures Erased(Close(t).log) == Erased(t.log)
  {
    ErasedConcat(t.log, SwitchFrom(t.curFd));
    ErasedMarks(t.curFd, t.curFd, 0, 0);
    assert Erased(t.log) + [] == Erased(t.log);
  }

  lemma {:induction false} MarkedPayloads(t: State)
    ensures Erased(Marked(Opened(t)).log) == Erased(t.log)
  {
    var o := Opened(t);
    ErasedConcat(o.log, BeforeItems(o.curFd, o.locals.wfd, o.locals.waddr, o.locals.wlen));
    ErasedMarks(o.curFd, o.locals.wfd, o.locals.waddr, o.locals.wlen);
    assert Erased(o.log) + [] == Erased(o.log);
  }

  // ---- while the loop goes on

  // The log is that of the online marker on the payloads emitted so far.
  ghost predicate Marking(t: State) {
    var ws := Erased(t.log);
    && t.log == Online(ws)
    && t.curFd == CurrentFd(ws)
    && (t.markState <==> ws != [])
  }

  // The start of a run on `fd` that has no payload yet.
  function Opening(ws: seq<Write>, fd: int): seq<Item> {
    BeforeItems(CurrentFd(ws), fd, SOME_BUFFER, SOME_LENGTH)
  }

  // Between before_write and the payload.
  ghost predicate Primed(t: State) {
    var ws := Erased(t.log);
    && Traced(t.locals.wfd) && t.curFd == t.locals.wfd && t.markState
    && t.log == Online(ws) + Opening(ws, t.curFd)
  }

  lemma {:induction false} MarkingPrimes(t: State)
    requires Marking(t) && Traced(t.locals.wfd) && !Ignored(t.locals.waddr, t.locals.wlen)
    ensures Primed(Marked(Opened(t)))
    ensures Erased(Marked(Opened(t)).log) == Erased(t.log)
  {
    var l, o := t.locals, Opened(t);
    var items := BeforeItems(o.curFd, l.wfd, l.waddr, l.wlen);
    ErasedConcat(o.log, items);
    ErasedMarks(o.curFd, l.wfd, l.waddr, l.wlen);
    assert Erased(o.log) + [] == Erased(t.log);
  }

  lemma {:induction false} PayloadMarks(t: State, data: seq<byte>, copied: seq<byte>)
    requires Primed(t)
    ensures var t' := t.(log := t.log + [Payload(t.locals.wfd, data)], copied := copied);
            Marking(t') && Erased(t'.log) == Erased(t.log) + [Write(t.locals.wfd, data)]
  {
    var item, w := Payload(t.locals.wfd, data), Write(t.locals.wfd, data);
    var ws := Erased(t.log);
    ErasedPayload(t.log, w);
    OnlineSnoc(ws, w);
    ConcatAssoc(Online(ws), Opening(ws, w.fd), [item]);
  }

  // ---- when it has ended

  // How often the last run has been closed when errmark_run_program returns.
  function Closes(status: nat): nat {
    if status == 0 then 2 else 3
  }

  // The log at the end of the wait loop (`program` false), or of
  // errmark_run_program (true).
  ghost predicate Final(t: State, program: bool) {
    var ws := Erased(t.log);
    match t.mode
    case Running => Marking(t)
    case Returned(status) =>
      && t.curFd == CurrentFd(ws) && (t.markState <==> ws != [])
      && t.log == Online(ws) + Repeat(SwitchFrom(t.curFd), Closes(status) - if program then 0 else 1)
    case Aborted =>
      && (Traced(t.curFd) || t.curFd == CurrentFd(ws))
      && t.log == Online(ws) + Opening(ws, t.curFd) + SwitchFrom(t.curFd)
    case OutOfMemory => Primed(t)
  }

  lemma {:induction false} RepeatSnoc<T>(s: seq<T>, n: nat)
    ensures Repeat(s, n) + s == Repeat(s, n + 1)
  {
    if n != 0 {
      RepeatSnoc(s, n - 1);
      ConcatAssoc(s, Repeat(s, n - 1), s);
    }
  }

  lemma {:induction false} CloseOnce(t: State, ws: seq<Write>, n: nat)
    requires t.log == Online(ws) + Repeat(SwitchFrom(CurrentFd(ws)), n)
    requires t.curFd == CurrentFd(ws) && (t.markState <==> ws != []) && Erased(t.log) == ws
    ensures Close(t).log == Online(ws) + Repeat(SwitchFrom(CurrentFd(ws)), n + 1)
    ensures Erased(Close(t).log) == ws
  {
    var s := SwitchFrom(CurrentFd(ws));
    RepeatSnoc(s, n);
    ConcatAssoc(Online(ws), Repeat(s, n), s);
    ErasedConcat(t.log, s);
    ErasedMarks(t.curFd, t.curFd, 0, 0);
    if !t.markState {
      assert Repeat(s, n) + [] == Repeat(s, n);
    }
  }

  lemma {:induction false} MarkingCloses(t: State)
    requires Marking(t)
    ensures var ws := Erased(t.log);
            && Close(t).log == Online(ws) + Repeat(SwitchFrom(CurrentFd(ws)), 1)
            && Erased(Close(t).log) == ws
  {
    assert t.log + [] == t.log;
    assert Repeat(SwitchFrom(t.curFd), 0) == [];
    CloseOnce(t, Erased(t.log), 0);
  }

  // A failed request closes the open run once and aborts, unless it is ESRCH; any
  // other outcome leaves the log alone.
  lemma {:induction false} MarkingAborts(t: State, errno: nat)
    requires Marking(t) && t.mode.Running?
    ensures Guard(t, errno).mode == if errno != 0 && errno != 3 then Aborted else Running
    ensures Guard(t, errno).log == t.log + if Guard(t, errno).mode.Aborted? then SwitchFrom(t.curFd) else []
    ensures Final(Guard(t, errno), false)
    ensures Guard(t, errno).mode.Running? ==> Marking(Guard(t, errno))
  {
    var ws := Erased(t.log);
    MarkingCloses(t);
    assert Opening(ws, t.curFd) == [];
    assert Online(ws) + [] == Online(ws);
    assert Repeat(SwitchFrom(t.curFd), 1) == SwitchFrom(t.curFd) + [] == SwitchFrom(t.curFd);
  }

  lemma {:induction false} PrimedAborts(t: State, errno: nat)
    requires Primed(t) && t.mode.Running?
    ensures Guard(t, errno).mode.Running? ==> Primed(Guard(t, errno))
    ensures Erased(Guard(t, errno).log) == Erased(t.log)
    ensures !Guard(t, errno).mode.Running? ==> Final(Guard(t, errno), false) && Guard(t, errno).mode.Aborted?
  {
    ErasedConcat(t.log, SwitchFrom(t.curFd));
    ErasedMarks(t.curFd, t.curFd, 0, 0);
    assert Erased(t.log) + [] == Erased(t.log);
  }
}
