// The bytes of bracketed runs, for any marks: which text stands where.

module Texts {
  import opened Base
  import opened Marks
  import opened Runs

  function Joined(chunks: seq<seq<byte>>): seq<byte> {
    if chunks == [] then [] else Joined(chunks[..|chunks| - 1]) + chunks[|chunks| - 1]
  }

  lemma {:induction false} PayloadBytes(t: Table, fd: int, chunks: seq<seq<byte>>)
    ensures Bytes(t, Payloads(Run(fd, chunks))) == Joined(chunks)
  {
    if chunks != [] {
      var init, last := chunks[..|chunks| - 1], chunks[|chunks| - 1];
      assert chunks == init + [last];
      RunSnoc(fd, init, last);
      BytesSnoc(t, Payloads(Run(fd, init)), Payload(fd, last));
      PayloadBytes(t, fd, init);
    }
  }

  // A run between the two marks of its descriptor. A mark that is not set has no
  // text.
  function RunText(t: Table, r: Run): seq<byte> {
    if r.fd == 1 then Text(t.start1) + Joined(r.chunks) + Text(t.end1)
    else if r.fd == 2 then Text(t.start2) + Joined(r.chunks) + Text(t.end2)
    else Joined(r.chunks)
  }

  function RunTexts(t: Table, rs: seq<Run>): seq<byte> {
    if rs == [] then [] else RunTexts(t, rs[..|rs| - 1]) + RunText(t, rs[|rs| - 1])
  }

  // The text that closes output to a descriptor.
  function EndText(t: Table, fd: int): seq<byte> {
    if fd == 1 then Text(t.end1) else if fd == 2 then Text(t.end2) else []
  }

  lemma {:induction false} BracketRunText(t: Table, r: Run)
    ensures Bytes(t, BracketRun(r)) == RunText(t, r)
  {
    hide Bytes, Payloads, Joined;
    BytesConcat(t, [Start(r.fd)] + Payloads(r), [End(r.fd)]);
    BytesConcat(t, [Start(r.fd)], Payloads(r));
    OneItem(t, Start(r.fd));
    OneItem(t, End(r.fd));
    assert r == Run(r.fd, r.chunks);
    PayloadBytes(t, r.fd, r.chunks);
    assert [] + Joined(r.chunks) + [] == Joined(r.chunks);
  }

  // For every table of marks: the bytes of bracketed runs are, run after run, the
  // start text of its descriptor, its payloads, and the end text.
  lemma {:induction false} BracketedText(t: Table, rs: seq<Run>)
    ensures Bytes(t, Bracketed(rs)) == RunTexts(t, rs)
  {
    if rs != [] {
      hide Bytes, BracketRun, RunText;
      var init, r := rs[..|rs| - 1], rs[|rs| - 1];
      BracketedText(t, init);
      BracketRunText(t, r);
      BytesConcat(t, Bracketed(init), BracketRun(r));
    }
  }

  lemma {:induction false} RepeatedEndText(t: Table, fd: int, n: nat)
    ensures Bytes(t, Repeat(SwitchFrom(fd), n)) == Repeat(EndText(t, fd), n)
  {
    if n != 0 {
      RepeatedEndText(t, fd, n - 1);
      BytesConcat(t, SwitchFrom(fd), Repeat(SwitchFrom(fd), n - 1));
      EndTextOf(t, fd);
    }
  }

  lemma {:induction false} EndTextOf(t: Table, fd: int)
    ensures Bytes(t, SwitchFrom(fd)) == EndText(t, fd)
  {
    if Traced(fd) {
      OneItem(t, End(fd));
    }
  }
}
