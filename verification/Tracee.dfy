// The traced program and the kernel under it, as the tracer meets them: a
// sequence of events reported by wait(), a register file, a memory, and an
// outcome for every ptrace request.

module Tracee {
  import opened Base
  import opened RemoteMemory
  import opened Marks

  const SYS_WRITE: Word := 1
  const SIGTRAP := 5
  const SIGCHLD := 17
  const EFAULT: Errno := 14

  // ---- wait statuses

  predicate Stopped(status: nat) {
    status % 256 == 0x7f
  }

  function StopSignal(status: nat): nat {
    status / 256 % 256
  }

  // A stop at which the tracee is alive and the tracer goes on.
  predicate Live(status: nat) {
    Stopped(status) && (StopSignal(status) == SIGTRAP || StopSignal(status) == SIGCHLD)
  }

  // Two statuses, as far as wait() gives meaning to them: 0x057f and 0x117f.
  lemma {:induction false} LiveStatuses(status: nat)
    ensures Live(status) <==> status % 0x10000 == 0x057f || status % 0x10000 == 0x117f
    ensures forall sig: nat :: sig < 256 ==> (Live(256 * sig + 127) <==> sig == 5 || sig == 17)
  {
    var low, byte0, byte1, rest := status % 0x10000, status % 256, status / 256 % 256, status / 0x10000;
    assert status == 0x10000 * rest + 256 * byte1 + byte0;
    assert low == 256 * byte1 + byte0;
    forall sig: nat | sig < 256 ensures (256 * sig + 127) % 256 == 127 && (256 * sig + 127) / 256 % 256 == sig {
    }
  }

  // ---- registers

  // orig_rax, rdi, rsi, rdx, rax, and all others.
  datatype Regs = Regs(syscall: Word, arg1: Word, arg2: Word, arg3: Word, retn: Word, rest: seq<Word>)

  // The descriptor a system call is about: the low 32 bits of its argument.
  function Fd(r: Regs): int {
    AsInt(r.arg1)
  }

  // ---- events

  // What the kernel would answer to the write it is asked to perform.
  datatype Answer = Fails(errno: Errno) | Takes(n: Word)

  datatype Op =
    | WriteEntry(regs: Regs, mem: Memory)  // stopped on the way into write()
    | WriteExit(answer: Answer)            // stopped on the way out of it
    | OtherStop(regs: Regs)                // any other stop
    | Gone                                 // no longer there

  // `getErr`, `setErr` and `resumeErr` are the errno of each request made at this
  // event, 0 for success; `junk` is what freshly allocated memory holds, and
  // `memoryLeft` whether there is any.
  datatype Event = Event(status: nat, op: Op, getErr: nat, setErr: nat, resumeErr: nat,
                         junk: seq<byte>, memoryLeft: bool)

  // One write the kernel itself has performed.
  datatype Output = Output(fd: int, data: seq<byte>)

  // `todo` is still to happen and `now` is what wait() reported last; `stopped` is
  // whether the tracee still waits to be resumed after it; `output` is what the
  // kernel has written, and `delivered` holds the registers with which the tracee
  // came out of each write().
  datatype Kernel = Kernel(todo: seq<Event>, now: Event, stopped: bool, regs: Regs, mem: Memory, inWrite: bool,
                           output: seq<Output>, delivered: seq<Regs>)

  // The bytes at `a`, up to n of them, as far as they are mapped.
  function Available(m: Memory, a: Word, n: Word): seq<byte>
    decreases n
  {
    if n == 0 || a !in m.bytes then [] else [m.bytes[a]] + Available(m, At(a, 1), n - 1)
  }

  function Written(r: Regs, m: Memory, answer: Answer): seq<byte> {
    match answer
    case Fails(_) => []
    case Takes(n) => Available(m, r.arg2, if n < r.arg3 then n else r.arg3)
  }

  function Result(r: Regs, m: Memory, answer: Answer): Word {
    match answer
    case Fails(errno) => TWO_64 - errno
    case Takes(n) =>
      var data := Written(r, m, answer);
      AvailableLength(m, r.arg2, if n < r.arg3 then n else r.arg3);
      if data == [] && n != 0 && r.arg3 != 0 then TWO_64 - EFAULT else |data|
  }

  lemma {:induction false} AvailableLength(m: Memory, a: Word, n: Word)
    ensures |Available(m, a, n)| <= n
    decreases n
  {
    if n != 0 && a in m.bytes {
      AvailableLength(m, At(a, 1), n - 1);
    }
  }

  // The pending write, with the registers as they are now.
  function Perform(k: Kernel, answer: Answer): Kernel {
    k.(output := k.output + [Output(Fd(k.regs), Written(k.regs, k.mem, answer))],
       regs := k.regs.(retn := Result(k.regs, k.mem, answer)),
       inWrite := false)
  }

  // Everything up to the next report of wait().
  function Wait(k: Kernel): Kernel
    requires k.todo != []
  {
    var k' := k.(todo := k.todo[1..], now := k.todo[0], stopped := !k.todo[0].op.Gone?);
    match k.todo[0].op
    case WriteEntry(r, m) => k'.(regs := r, mem := m, inWrite := true)
    case WriteExit(answer) => Perform(k', answer)
    case OtherStop(r) => k'.(regs := r)
    case Gone => k'
  }

  // ---- ptrace requests

  datatype Request = GETREGS | SETREGS | SYSCALL

  datatype Reply = Reply(k: Kernel, errno: nat, regs: Regs)

  function Released(k: Kernel): Kernel {
    var k' := k.(stopped := false);
    if k.now.op.WriteExit? then k'.(delivered := k.delivered + [k.regs]) else k'
  }

  // `data` is the caller's register buffer, which a failed request leaves alone.
  function Ptrace(k: Kernel, request: Request, data: Regs): Reply {
    var err := if k.now.op.Gone? then ESRCH
               else match request
                    case GETREGS => k.now.getErr
                    case SETREGS => k.now.setErr
                    case SYSCALL => k.now.resumeErr;
    if err != 0 then Reply(k, err, data)
    else match request
         case GETREGS => Reply(k, 0, k.regs)
         case SETREGS => Reply(k.(regs := data), 0, data)
         case SYSCALL => Reply(Released(k), 0, data)
  }

  class Machine {
    var k: Kernel

    constructor (k: Kernel)
      ensures this.k == k
    {
      this.k := k;
    }

    method DoWait() returns (status: nat)
      requires k.todo != []
      modifies this
      ensures k == Wait(old(k)) && status == k.now.status
    {
      k := Wait(k);
      status := k.now.status;
    }

    method DoPtrace(request: Request, data: Regs) returns (rc: int, errno: nat, regs: Regs)
      modifies this
      ensures Reply(k, errno, regs) == Ptrace(old(k), request, data)
      ensures rc == -1 <==> errno != 0
    {
      var reply := Ptrace(k, request, data);
      k := reply.k;
      errno, regs := reply.errno, reply.regs;
      rc := if errno != 0 then -1 else 0;
    }
  }

  // ---- the same program run without a tracer

  // With nobody in between, the terminal takes every write to fd 1 or 2 whole.
  function TerminalAnswer(r: Regs, answer: Answer): Answer {
    if Traced(Fd(r)) then Takes(r.arg3) else answer
  }

  function DirectStep(k: Kernel): Kernel
    requires k.todo != []
  {
    var e := k.todo[0];
    var e' := if e.op.WriteExit? then e.(op := WriteExit(TerminalAnswer(k.regs, e.op.answer))) else e;
    Released(Wait(k.(todo := [e'] + k.todo[1..])))
  }

  function Direct(k: Kernel): Kernel
    decreases |k.todo|
  {
    if k.todo == [] then k else Direct(DirectStep(k))
  }

  // ---- what a kernel can report

  // A write is entered, then left, with nothing in between but the tracee's end;
  // system call numbers are not stale; nothing follows the end.
  predicate Disciplined(es: seq<Event>, inWrite: bool) {
    es == [] || (
      var e := es[0];
      match e.op
      case WriteEntry(r, _) =>
        !inWrite && r.syscall == SYS_WRITE && Live(e.status) && Disciplined(es[1..], true)
      case WriteExit(_) =>
        inWrite && Live(e.status) && Disciplined(es[1..], false)
      case OtherStop(r) =>
        !inWrite && r.syscall != SYS_WRITE && Live(e.status) && Disciplined(es[1..], false)
      case Gone =>
        !Live(e.status) && |es| == 1)
  }

  // No request fails while the tracee lives, and memory does not run out.
  predicate Clean(e: Event) {
    e.getErr == 0 && e.setErr == 0 && e.resumeErr == 0 && e.memoryLeft
  }
}
