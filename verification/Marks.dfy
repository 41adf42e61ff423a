// The marker: which marks are written when output switches between fd 1 and
// fd 2, and how they reach a device shared with buffered payload.

module Marks {
  import opened Base
  import opened Stdio

  // What errmark puts on the terminal, before it is turned into bytes.
  datatype Item = Start(fd: int) | End(fd: int) | Payload(fd: int, data: seq<byte>)

  // NULL marks are None. An empty string is a mark of no bytes.
  datatype Table = Table(start1: Option<seq<byte>>, end1: Option<seq<byte>>,
                         start2: Option<seq<byte>>, end2: Option<seq<byte>>)

  predicate Traced(fd: int) {
    fd == 1 || fd == 2
  }

  function Text(mark: Option<seq<byte>>): seq<byte> {
    if mark.Some? then mark.value else []
  }

  function ItemBytes(t: Table, item: Item): seq<byte> {
    match item
    case Start(fd) => if fd == 1 then Text(t.start1) else if fd == 2 then Text(t.start2) else []
    case End(fd) => if fd == 1 then Text(t.end1) else if fd == 2 then Text(t.end2) else []
    case Payload(_, data) => data
  }

  function Bytes(t: Table, log: seq<Item>): seq<byte> {
    if log == [] then [] else Bytes(t, log[..|log| - 1]) + ItemBytes(t, log[|log| - 1])
  }

  lemma {:induction false} BytesSnoc(t: Table, log: seq<Item>, item: Item)
    ensures Bytes(t, log + [item]) == Bytes(t, log) + ItemBytes(t, item)
  {
    assert (log + [item])[..|log|] == log;
  }

  lemma {:induction false} OneItem(t: Table, item: Item)
    ensures Bytes(t, [item]) == ItemBytes(t, item)
  {
    BytesSnoc(t, [], item);
    assert [] + [item] == [item];
  }

  lemma {:induction false} BytesConcat(t: Table, a: seq<Item>, b: seq<Item>)
    ensures Bytes(t, a + b) == Bytes(t, a) + Bytes(t, b)
  {
    if b == [] {
      assert a + b == a;
    } else {
      var b', last := b[..|b| - 1], b[|b| - 1];
      assert a + b == a + b' + [last] && b == b' + [last];
      BytesSnoc(t, a + b', last);
      BytesConcat(t, a, b');
    }
  }

  // ---- what cannot be left behind in a buffer

  // The text of a mark that is set.
  function MarkText(t: Table, item: Item): Option<seq<byte>> {
    match item
    case Start(fd) => if fd == 1 then t.start1 else if fd == 2 then t.start2 else None
    case End(fd) => if fd == 1 then t.end1 else if fd == 2 then t.end2 else None
    case Payload(_, _) => None
  }

  predicate Flushes(t: Table, items: seq<Item>) {
    exists i :: 0 <= i < |items| && MarkText(t, items[i]).Some?
  }

  lemma {:induction false} FlushesConcat(t: Table, a: seq<Item>, b: seq<Item>)
    ensures Flushes(t, a + b) <==> Flushes(t, a) || Flushes(t, b)
    ensures !Flushes(t, [])
  {
    if Flushes(t, a) {
      var i :| 0 <= i < |a| && MarkText(t, a[i]).Some?;
      assert MarkText(t, (a + b)[i]).Some?;
    }
    if Flushes(t, b) {
      var i :| 0 <= i < |b| && MarkText(t, b[i]).Some?;
      assert MarkText(t, (a + b)[|a| + i]).Some?;
    }
  }

  // The log up to the last mark that is set. Such a mark is written past the
  // buffer, after a flush, so no byte of this can be pending.
  function Settled(t: Table, log: seq<Item>): seq<Item> {
    if log == [] || MarkText(t, log[|log| - 1]).Some? then log else Settled(t, log[..|log| - 1])
  }

  lemma {:induction false} SettledIsPrefix(t: Table, log: seq<Item>)
    ensures |Settled(t, log)| <= |log| && Settled(t, log) == log[..|Settled(t, log)|]
    ensures forall i :: |Settled(t, log)| <= i < |log| ==> MarkText(t, log[i]).None?
  {
    if log != [] && MarkText(t, log[|log| - 1]).None? {
      SettledIsPrefix(t, log[..|log| - 1]);
    }
  }

  lemma {:induction false} SettledBytes(t: Table, log: seq<Item>)
    ensures |Bytes(t, Settled(t, log))| <= |Bytes(t, log)|
  {
    SettledIsPrefix(t, log);
    var n := |Settled(t, log)|;
    assert log == log[..n] + log[n..];
    BytesConcat(t, log[..n], log[n..]);
  }

  lemma {:induction false} SettledConcat(t: Table, log: seq<Item>, items: seq<Item>)
    requires !Flushes(t, items)
    ensures Settled(t, log + items) == Settled(t, log)
  {
    if items == [] {
      assert log + items == log;
    } else {
      var init := items[..|items| - 1];
      assert (log + items)[..|log + items| - 1] == log + init;
      assert MarkText(t, items[|items| - 1]).None?;
      SettledConcat(t, log, init);
    }
  }

  // ---- the automaton on logs

  function SwitchFrom(fd: int): seq<Item> {
    if Traced(fd) then [End(fd)] else []
  }

  function SwitchTo(fd: int): seq<Item> {
    if Traced(fd) then [Start(fd)] else []
  }

  // A NULL buffer and a length of (size_t)-1 are left alone.
  predicate Ignored(buf: Word, len: Word) {
    buf == 0 || len == TWO_64 - 1
  }

  predicate Switches(cur: int, fd: int, buf: Word, len: Word) {
    !Ignored(buf, len) && Traced(fd) && fd != cur
  }

  function BeforeItems(cur: int, fd: int, buf: Word, len: Word): seq<Item> {
    if Switches(cur, fd, buf, len) then SwitchFrom(cur) + SwitchTo(fd) else []
  }

  function BeforeFd(cur: int, fd: int, buf: Word, len: Word): int {
    if Switches(cur, fd, buf, len) then fd else cur
  }

  // ---- the marker itself

  class Marker {
    var start1: Option<seq<byte>>
    var end1: Option<seq<byte>>
    var start2: Option<seq<byte>>
    var end2: Option<seq<byte>>
    var curFd: int
    const stdout: Stream  // fd 1 and fd 2 are one device, and stdout is open on it

    constructor (stdout: Stream)
      ensures this.stdout == stdout && curFd == -1
      ensures Marks() == Table(None, None, None, None)
    {
      this.stdout := stdout;
      start1, end1, start2, end2 := None, None, None, None;
      curFd := -1;
    }

    function Marks(): Table
      reads this
    {
      Table(start1, end1, start2, end2)
    }

    // What every method that emits marks promises about the device: the bytes of
    // `items` come after everything that was written or buffered before, and
    // bytes already on the device stay there.
    twostate predicate Emitted(items: seq<Item>)
      reads this, stdout
    {
      && stdout.Logical() == old(stdout.Logical()) + Bytes(Marks(), items)
      && old(stdout.device) <= stdout.device
      && Marks() == old(Marks())
    }

    method WriteStartStdout()
      modifies stdout
      ensures Emitted([Start(1)])
      ensures stdout.device == if start1.Some? then old(stdout.Logical()) + start1.value else old(stdout.device)
      ensures Flushes(Marks(), [Start(1)]) ==> stdout.pending == []
    {
      BytesSnoc(Marks(), [], Start(1));
      if start1 != None {
        stdout.Fflush();
        stdout.RawWrite(start1.value);
      }
    }

    method WriteEndStdout()
      modifies stdout
      ensures Emitted([End(1)])
      ensures stdout.device == if end1.Some? then old(stdout.Logical()) + end1.value else old(stdout.device)
      ensures Flushes(Marks(), [End(1)]) ==> stdout.pending == []
    {
      BytesSnoc(Marks(), [], End(1));
      if end1 != None {
        stdout.Fflush();
        stdout.RawWrite(end1.value);
      }
    }

    method WriteStartStderr()
      modifies stdout
      ensures Emitted([Start(2)])
      ensures stdout.device == if start2.Some? then old(stdout.Logical()) + start2.value else old(stdout.device)
      ensures Flushes(Marks(), [Start(2)]) ==> stdout.pending == []
    {
      BytesSnoc(Marks(), [], Start(2));
      if start2 != None {
        stdout.Fflush();
        stdout.RawWrite(start2.value);
      }
    }

    method WriteEndStderr()
      modifies stdout
      ensures Emitted([End(2)])
      ensures stdout.device == if end2.Some? then old(stdout.Logical()) + end2.value else old(stdout.device)
      ensures Flushes(Marks(), [End(2)]) ==> stdout.pending == []
    {
      BytesSnoc(Marks(), [], End(2));
      if end2 != None {
        stdout.Fflush();
        stdout.RawWrite(end2.value);
      }
    }

    method SwitchFromFd(fd: int)
      modifies stdout
      ensures Emitted(SwitchFrom(fd))
      ensures Flushes(Marks(), SwitchFrom(fd)) ==> stdout.pending == []
    {
      if fd == 1 {
        WriteEndStdout();
      }
      if fd == 2 {
        WriteEndStderr();
      }
    }

    method SwitchToFd(fd: int)
      modifies stdout
      ensures Emitted(SwitchTo(fd))
      ensures Flushes(Marks(), SwitchTo(fd)) ==> stdout.pending == []
      ensures !Flushes(Marks(), SwitchTo(fd)) && old(stdout.pending) == [] ==> stdout.pending == []
    {
      if fd == 1 {
        WriteStartStdout();
      }
      if fd == 2 {
        WriteStartStderr();
      }
    }

    method BeforeWrite(fd: int, buf: Word, len: Word)
      modifies this`curFd, stdout
      ensures Emitted(BeforeItems(old(curFd), fd, buf, len))
      ensures Flushes(Marks(), BeforeItems(old(curFd), fd, buf, len)) ==> stdout.pending == []
      ensures curFd == BeforeFd(old(curFd), fd, buf, len)
    {
      FlushesConcat(Marks(), SwitchFrom(curFd), SwitchTo(fd));
      BytesConcat(Marks(), SwitchFrom(curFd), SwitchTo(fd));
      assert Bytes(Marks(), []) == [];
      hide Flushes, Bytes, SwitchFrom, SwitchTo;
      if buf == 0 || len == TWO_64 - 1 {
        return;
      }
      if (fd == 1 || fd == 2) && fd != curFd {
        ghost var a, b := Bytes(Marks(), SwitchFrom(curFd)), Bytes(Marks(), SwitchTo(fd));
        SwitchFromFd(curFd);
        ghost var between := stdout.device;
        SwitchToFd(fd);
        ConcatAssoc(old(stdout.Logical()), a, b);
        PrefixTransitive(old(stdout.device), between, stdout.device);
        curFd := fd;
      }
    }

    method AfterWrite(fd: int, buf: Word, len: Word)
      ensures Emitted([]) && curFd == old(curFd)
    {
    }

    method MarkOpen()
      modifies this`curFd
      ensures curFd == -1 && Marks() == old(Marks())
    {
      curFd := -1;
    }

    // Nothing here forgets the current descriptor: closing again repeats the end
    // mark.
    method MarkClose()
      modifies stdout
      ensures Emitted(SwitchFrom(curFd))
      ensures Flushes(Marks(), SwitchFrom(curFd)) ==> stdout.pending == []
    {
      SwitchFromFd(curFd);
    }

    method SetMark(fd: int, start: seq<byte>, end: seq<byte>) returns (ok: bool)
      modifies this
      ensures ok <==> Traced(fd)
      ensures curFd == old(curFd)
      ensures Marks() == Install(old(Marks()), if ok then Accepted(fd, start, end) else Rejected)
    {
      if fd == 1 {
        start1, end1 := Some(start), Some(end);
      } else if fd == 2 {
        start2, end2 := Some(start), Some(end);
      } else {
        return false;
      }
      return true;
    }

    // `mspec` is a C string: the characters before its terminating NUL.
    method ParseMarkSpecs(mspec: seq<byte>) returns (ok: bool)
      requires 0 !in mspec
      modifies this
      ensures ok <==> !Parse(mspec).Rejected?
      ensures curFd == old(curFd)
      ensures Marks() == Install(old(Marks()), Parse(mspec))
    {
      hide First, Parse;
      ParseShort(mspec);
      var s := 0;
      if !(CharAt(mspec, s) == DIGIT_1 || CharAt(mspec, s) == DIGIT_2) {
        return false;
      }
      var fd := CharAt(mspec, s) - DIGIT_0;
      s := s + 1;
      var fsep := CharAt(mspec, s);
      if CharAt(mspec, s) == 0 {
        return true;
      }

      s := s + 1;
      var markStart := s;
      var markEnd := s;
      var markEndLen := 0;
      ghost var rest := mspec[2..];
      while CharAt(mspec, s) != 0 && CharAt(mspec, s) != fsep
        invariant markStart <= s <= |mspec|
        invariant forall i :: 0 <= i < s - markStart ==> rest[i] != fsep
        decreases |mspec| - s
      {
        s := s + 1;
      }
      var markStartLen := s - markStart;
      ParseOf(mspec, s);

      if CharAt(mspec, s) == fsep {
        s := s + 1;
        markEnd := s;
        while CharAt(mspec, s) != 0
          invariant markEnd <= s <= |mspec|
          decreases |mspec| - s
        {
          s := s + 1;
        }
        // The loop stops at the terminating NUL, so this never strips anything.
        assert s == |mspec| && fsep != 0;
        if CharAt(mspec, s) == fsep {
          s := s - 1;
        }
        markEndLen := s - markEnd;
      }

      var start := mspec[markStart..markStart + markStartLen];
      var end := mspec[markEnd..markEnd + markEndLen];
      assert Accepted(fd, start, end) == Parse(mspec) by {
        assert start == Parse(mspec).start;
        assert end == Parse(mspec).end;
      }
      if fd == 1 {
        start1, end1 := Some(start), Some(end);
      }
      if fd == 2 {
        start2, end2 := Some(start), Some(end);
      }
      return true;
    }
  }

  // ---- mark specifications

  const DIGIT_0: byte := 48
  const DIGIT_1: byte := 49
  const DIGIT_2: byte := 50

  // The character at s[i] of a C string.
  function CharAt(s: seq<byte>, i: nat): byte {
    if i < |s| then s[i] else 0
  }

  function First(s: seq<byte>, c: byte): (n: nat)
    ensures n <= |s|
  {
    if s == [] || s[0] == c then 0 else 1 + First(s[1..], c)
  }

  lemma {:induction false} FirstIsFirst(s: seq<byte>, c: byte, n: nat)
    requires n <= |s|
    requires forall i :: 0 <= i < n ==> s[i] != c
    requires n < |s| ==> s[n] == c
    ensures First(s, c) == n
  {
    if n != 0 {
      FirstIsFirst(s[1..], c, n - 1);
    }
  }

  // Nothing installed, though accepted, is Unchanged.
  datatype Parsed = Rejected | Unchanged | Accepted(fd: int, start: seq<byte>, end: seq<byte>)

  // fd, separator, start, separator, end: the second separator and the end may
  // be missing, and so may everything after fd.
  function Parse(mspec: seq<byte>): Parsed {
    if mspec == [] || (mspec[0] != DIGIT_1 && mspec[0] != DIGIT_2) then Rejected
    else if |mspec| == 1 then Unchanged
    else
      var rest := mspec[2..];
      var n := First(rest, mspec[1]);
      Accepted(mspec[0] - DIGIT_0, rest[..n], if n < |rest| then rest[n + 1..] else [])
  }

  lemma {:induction false} ParseShort(mspec: seq<byte>)
    ensures Parse(mspec).Rejected? <==> CharAt(mspec, 0) != DIGIT_1 && CharAt(mspec, 0) != DIGIT_2
    ensures Parse(mspec).Unchanged? <==> |mspec| == 1 && !Parse(mspec).Rejected?
  {
  }

  // The parse, when the start string runs up to mspec[at].
  lemma {:induction false} ParseOf(mspec: seq<byte>, at: nat)
    requires 2 <= at <= |mspec| && (mspec[0] == DIGIT_1 || mspec[0] == DIGIT_2)
    requires forall i :: 0 <= i < at - 2 ==> mspec[2..][i] != mspec[1]
    requires at < |mspec| ==> mspec[at] == mspec[1]
    ensures Parse(mspec) == Accepted(mspec[0] - DIGIT_0, mspec[2..at],
                                     if at < |mspec| then mspec[at + 1..] else [])
  {
    FirstIsFirst(mspec[2..], mspec[1], at - 2);
    assert mspec[2..][..at - 2] == mspec[2..at];
    if at < |mspec| {
      assert mspec[2..][at - 1..] == mspec[at + 1..];
    }
  }

  function Install(t: Table, p: Parsed): Table {
    if p.Accepted? && p.fd == 1 then t.(start1 := Some(p.start), end1 := Some(p.end))
    else if p.Accepted? && p.fd == 2 then t.(start2 := Some(p.start), end2 := Some(p.end))
    else t
  }

  // Which specifications are accepted: those that start with a 1 or a 2. One that is
  // nothing but that, or is rejected, changes no mark.
  lemma {:induction false} ParseAccepts(t: Table, mspec: seq<byte>)
    ensures Parse(mspec).Rejected? <==> mspec == [] || (mspec[0] != 49 && mspec[0] != 50)
    ensures |mspec| == 1 || Parse(mspec).Rejected? ==> Install(t, Parse(mspec)) == t
    ensures |mspec| >= 2 && (mspec[0] == 49 || mspec[0] == 50) ==>
              Parse(mspec).Accepted? && Parse(mspec).fd == mspec[0] - 48
  {
  }

  function Spec(fd: int, sep: byte, start: seq<byte>, end: seq<byte>): seq<byte>
    requires Traced(fd)
  {
    [DIGIT_0 + fd, sep] + start + [sep] + end
  }

  // Writing a specification and parsing it gives the marks back, whatever the
  // end string holds, and leaves the other descriptor's marks alone.
  lemma {:induction false} SpecRoundTrip(t: Table, fd: int, sep: byte, start: seq<byte>, end: seq<byte>)
    requires Traced(fd) && sep !in start
    ensures Parse(Spec(fd, sep, start, end)) == Accepted(fd, start, end)
    ensures var t' := Install(t, Parse(Spec(fd, sep, start, end)));
            if fd == 1
            then t' == Table(Some(start), Some(end), t.start2, t.end2)
            else t' == Table(t.start1, t.end1, Some(start), Some(end))
  {
    var rest := Spec(fd, sep, start, end)[2..];
    assert rest == start + [sep] + end;
    FirstIsFirst(rest, sep, |start|);
    assert rest[..|start|] == start && rest[|start| + 1..] == end;
  }

  // Every accepted specification is one of the two forms, and is rebuilt from
  // what was parsed out of it.
  lemma {:induction false} ParseInverts(mspec: seq<byte>)
    requires Parse(mspec).Accepted?
    ensures var p := Parse(mspec);
            && |mspec| >= 2 && Traced(p.fd) && mspec[1] !in p.start
            && (mspec == Spec(p.fd, mspec[1], p.start, p.end)
                || (p.end == [] && mspec == [DIGIT_0 + p.fd, mspec[1]] + p.start))
  {
    var rest, sep := mspec[2..], mspec[1];
    FirstFinds(rest, sep);
    assert mspec == [mspec[0], sep] + rest;
    var p := Parse(mspec);
    hide Parse, First;
    var n := First(rest, sep);
    if n < |rest| {
      assert rest == p.start + ([sep] + p.end);
    } else {
      assert rest == p.start;
    }
  }

  lemma {:induction false} FirstFinds(s: seq<byte>, c: byte)
    ensures First(s, c) < |s| ==> s == s[..First(s, c)] + ([c] + s[First(s, c) + 1..])
    ensures c !in s[..First(s, c)]
  {
    FirstIsWhere(s, c);
    var n := First(s, c);
    hide First;
    if n < |s| {
      assert s == s[..n] + s[n..] && s[n..] == [s[n]] + s[n + 1..];
    }
  }

  lemma {:induction false} FirstIsWhere(s: seq<byte>, c: byte)
    ensures First(s, c) < |s| ==> s[First(s, c)] == c
    ensures forall i :: 0 <= i < First(s, c) ==> s[i] != c
  {
    if s != [] && s[0] != c {
      FirstIsWhere(s[1..], c);
      assert forall i :: 0 < i < First(s, c) ==> s[i] == s[1..][i - 1];
    }
  }

  // The end string without one trailing separator, as the usage example reads.
  function Stripped(end: seq<byte>, sep: byte): seq<byte> {
    if end != [] && end[|end| - 1] == sep then end[..|end| - 1] else end
  }

  // The strip of a trailing separator never happens: the parsed end is the
  // stripped one exactly when the end does not finish with the separator.
  lemma {:induction false} TrailingSeparatorIsKept(fd: int, sep: byte, start: seq<byte>, end: seq<byte>)
    requires Traced(fd) && sep !in start
    ensures Parse(Spec(fd, sep, start, end)).end == Stripped(end, sep)
            <==> end == [] || end[|end| - 1] != sep
  {
    SpecRoundTrip(Table(None, None, None, None), fd, sep, start, end);
  }
}
