// The offline specification of marking: cut the writes to fd 1 and fd 2 into
// maximal runs of one descriptor and bracket each run. The online marker, which
// sees one write at a time, produces exactly that.

module Runs {
  import opened Base
  import opened Marks

  datatype Write = Write(fd: int, data: seq<byte>)
  datatype Run = Run(fd: int, chunks: seq<seq<byte>>)

  // ---- the offline form

  function KeepTraced(ws: seq<Write>): seq<Write> {
    if ws == [] then []
    else
      var w := ws[|ws| - 1];
      KeepTraced(ws[..|ws| - 1]) + if Traced(w.fd) then [w] else []
  }

  function RunWrites(r: Run): seq<Write> {
    seq(|r.chunks|, i requires 0 <= i < |r.chunks| => Write(r.fd, r.chunks[i]))
  }

  function AllWrites(rs: seq<Run>): seq<Write> {
    if rs == [] then [] else AllWrites(rs[..|rs| - 1]) + RunWrites(rs[|rs| - 1])
  }

  ghost predicate WellCut(rs: seq<Run>) {
    && (forall i :: 0 <= i < |rs| ==> Traced(rs[i].fd) && rs[i].chunks != [])
    && (forall i :: 0 < i < |rs| ==> rs[i - 1].fd != rs[i].fd)
  }

  // `rs` cuts `ws` into runs of one descriptor that cannot be made longer.
  ghost predicate MaximalRuns(rs: seq<Run>, ws: seq<Write>) {
    && WellCut(rs)
    && AllWrites(rs) == KeepTraced(ws)
  }

  function Payloads(r: Run): seq<Item> {
    seq(|r.chunks|, i requires 0 <= i < |r.chunks| => Payload(r.fd, r.chunks[i]))
  }

  function BracketRun(r: Run): seq<Item> {
    [Start(r.fd)] + Payloads(r) + [End(r.fd)]
  }

  function Bracketed(rs: seq<Run>): seq<Item> {
    if rs == [] then [] else Bracketed(rs[..|rs| - 1]) + BracketRun(rs[|rs| - 1])
  }

  // ---- the online form: before_write, then the payload, write after write

  function CurrentFd(ws: seq<Write>): int {
    if ws == [] then -1
    else if Traced(ws[|ws| - 1].fd) then ws[|ws| - 1].fd
    else CurrentFd(ws[..|ws| - 1])
  }

  // Any buffer and length that the marker does not ignore.
  const SOME_BUFFER: Word := 8
  const SOME_LENGTH: Word := 1

  // What one more write does to the log.
  function Step(cur: int, w: Write): seq<Item> {
    if Traced(w.fd)
    then BeforeItems(cur, w.fd, SOME_BUFFER, SOME_LENGTH) + [Payload(w.fd, w.data)]
    else []
  }

  function Online(ws: seq<Write>): seq<Item> {
    if ws == [] then []
    else
      var before, w := ws[..|ws| - 1], ws[|ws| - 1];
      Online(before) + Step(CurrentFd(before), w)
  }

  // The greedy cut, one write at a time.
  function AddWrite(rs: seq<Run>, w: Write): seq<Run> {
    if !Traced(w.fd) then rs
    else if rs != [] && rs[|rs| - 1].fd == w.fd then
      rs[..|rs| - 1] + [Run(w.fd, rs[|rs| - 1].chunks + [w.data])]
    else
      rs + [Run(w.fd, [w.data])]
  }

  function Cut(ws: seq<Write>): seq<Run> {
    if ws == [] then [] else AddWrite(Cut(ws[..|ws| - 1]), ws[|ws| - 1])
  }

  function LastFd(rs: seq<Run>): int {
    if rs == [] then -1 else rs[|rs| - 1].fd
  }

  lemma {:induction false} Last<T>(s: seq<T>, x: T)
    ensures (s + [x])[..|s + [x]| - 1] == s && (s + [x])[|s + [x]| - 1] == x
  {
  }

  lemma {:induction false} RunSnoc(fd: int, chunks: seq<seq<byte>>, data: seq<byte>)
    ensures RunWrites(Run(fd, chunks + [data])) == RunWrites(Run(fd, chunks)) + [Write(fd, data)]
    ensures Payloads(Run(fd, chunks + [data])) == Payloads(Run(fd, chunks)) + [Payload(fd, data)]
  {
  }

  lemma {:induction false} RunsSnoc(rs: seq<Run>, r: Run)
    ensures AllWrites(rs + [r]) == AllWrites(rs) + RunWrites(r)
    ensures Bracketed(rs + [r]) == Bracketed(rs) + BracketRun(r)
  {
    Last(rs, r);
  }

  lemma {:induction false} SplitLast(rs: seq<Run>)
    requires rs != []
    ensures var r := rs[|rs| - 1];
            && rs == rs[..|rs| - 1] + [r]
            && AllWrites(rs) == AllWrites(rs[..|rs| - 1]) + RunWrites(r)
            && Bracketed(rs) == Bracketed(rs[..|rs| - 1]) + BracketRun(r)
  {
  }

  // One write more, at the end of the same run or in a run of its own.
  lemma {:induction false} AddWriteWrites(rs: seq<Run>, w: Write)
    requires Traced(w.fd)
    ensures AllWrites(AddWrite(rs, w)) == AllWrites(rs) + [w]
  {
    if LastFd(rs) == w.fd && rs != [] {
      var init, chunks := rs[..|rs| - 1], rs[|rs| - 1].chunks;
      SplitLast(rs);
      RunsSnoc(init, Run(w.fd, chunks + [w.data]));
      RunSnoc(w.fd, chunks, w.data);
    } else {
      RunsSnoc(rs, Run(w.fd, [w.data]));
      RunSnoc(w.fd, [], w.data);
      assert [] + [w.data] == [w.data];
    }
  }

  lemma {:induction false} AddWriteWellCut(rs: seq<Run>, w: Write)
    requires WellCut(rs)
    ensures WellCut(AddWrite(rs, w))
    ensures LastFd(AddWrite(rs, w)) == if Traced(w.fd) then w.fd else LastFd(rs)
  {
  }

  lemma {:induction false} CutIsMaximal(ws: seq<Write>)
    ensures MaximalRuns(Cut(ws), ws)
    ensures CurrentFd(ws) == LastFd(Cut(ws))
  {
    if ws != [] {
      var before, w := ws[..|ws| - 1], ws[|ws| - 1];
      CutIsMaximal(before);
      AddWriteWellCut(Cut(before), w);
      if Traced(w.fd) {
        AddWriteWrites(Cut(before), w);
      }
    }
  }

  lemma {:induction false} SomeWrites(rs: seq<Run>)
    requires WellCut(rs) && rs != []
    ensures AllWrites(rs) != []
  {
    SplitLast(rs);
  }

  // Undoing the last write of a maximal cut.
  lemma {:induction false} DropWrite(rs: seq<Run>, w: Write, rest: seq<Write>) returns (shorter: seq<Run>)
    requires WellCut(rs) && AllWrites(rs) == rest + [w]
    ensures WellCut(shorter) && AllWrites(shorter) == rest
    ensures rs == AddWrite(shorter, w)
  {
    assert rs != [];
    SplitLast(rs);
    var init, r := rs[..|rs| - 1], rs[|rs| - 1];
    var chunks, data := r.chunks[..|r.chunks| - 1], r.chunks[|r.chunks| - 1];
    assert r == Run(r.fd, chunks + [data]);
    RunSnoc(r.fd, chunks, data);
    Last(AllWrites(init) + RunWrites(Run(r.fd, chunks)), Write(r.fd, data));
    Last(rest, w);
    assert rest + [w] == AllWrites(init) + RunWrites(Run(r.fd, chunks)) + [Write(r.fd, data)];
    if chunks == [] {
      shorter := init;
      assert RunWrites(Run(r.fd, chunks)) == [];
    } else {
      shorter := init + [Run(r.fd, chunks)];
      RunsSnoc(init, Run(r.fd, chunks));
      Last(init, Run(r.fd, chunks));
    }
  }

  // Maximal runs are unique.
  lemma {:induction false} MaximalRunsAreCut(rs: seq<Run>, ws: seq<Write>)
    requires MaximalRuns(rs, ws)
    ensures rs == Cut(ws)
    decreases |ws|
  {
    if ws == [] {
      if rs != [] {
        SomeWrites(rs);
      }
    } else {
      var before, w := ws[..|ws| - 1], ws[|ws| - 1];
      if Traced(w.fd) {
        var shorter := DropWrite(rs, w, KeepTraced(before));
        MaximalRunsAreCut(shorter, before);
      } else {
        MaximalRunsAreCut(rs, before);
      }
    }
  }

  lemma {:induction false} LongerRunBrackets(rs: seq<Run>, open: seq<Item>, w: Write)
    requires rs != [] && Traced(w.fd) && LastFd(rs) == w.fd
    requires open + [End(w.fd)] == Bracketed(rs)
    ensures open + [Payload(w.fd, w.data)] + [End(w.fd)] == Bracketed(AddWrite(rs, w))
  {
    var init, r := rs[..|rs| - 1], rs[|rs| - 1];
    SplitLast(rs);
    RunsSnoc(init, Run(w.fd, r.chunks + [w.data]));
    RunSnoc(w.fd, r.chunks, w.data);
    hide Bracketed, Payloads;
    var inside := Bracketed(init) + ([Start(w.fd)] + Payloads(r));
    ConcatAssoc(Bracketed(init), [Start(w.fd)] + Payloads(r), [End(w.fd)]);
    Last(open, End(w.fd));
    Last(inside, End(w.fd));
    assert open == inside;
    var now := Payloads(r) + [Payload(w.fd, w.data)];
    assert [Start(w.fd)] + now + [End(w.fd)]
        == [Start(w.fd)] + Payloads(r) + [Payload(w.fd, w.data)] + [End(w.fd)];
  }

  lemma {:induction false} NewRunBrackets(rs: seq<Run>, open: seq<Item>, w: Write)
    requires Traced(w.fd) && (rs == [] || LastFd(rs) != w.fd)
    requires open + SwitchFrom(LastFd(rs)) == Bracketed(rs)
    ensures open + Step(LastFd(rs), w) + [End(w.fd)] == Bracketed(AddWrite(rs, w))
  {
    RunsSnoc(rs, Run(w.fd, [w.data]));
    hide Bracketed;
    assert Payloads(Run(w.fd, [w.data])) == [Payload(w.fd, w.data)];
    assert open + Step(LastFd(rs), w) == open + SwitchFrom(LastFd(rs)) + [Start(w.fd), Payload(w.fd, w.data)];
  }

  lemma {:induction false} AddWriteBrackets(rs: seq<Run>, open: seq<Item>, w: Write)
    requires open + SwitchFrom(LastFd(rs)) == Bracketed(rs) && WellCut(rs)
    ensures open + Step(LastFd(rs), w) + SwitchFrom(LastFd(AddWrite(rs, w))) == Bracketed(AddWrite(rs, w))
  {
    AddWriteWellCut(rs, w);
    if !Traced(w.fd) {
      assert open + [] == open;
    } else if LastFd(rs) == w.fd && rs != [] {
      LongerRunBrackets(rs, open, w);
      assert [] + [Payload(w.fd, w.data)] == [Payload(w.fd, w.data)];
    } else {
      NewRunBrackets(rs, open, w);
    }
  }

  lemma {:induction false} OnlineSnoc(ws: seq<Write>, w: Write)
    ensures Online(ws + [w]) == Online(ws) + Step(CurrentFd(ws), w)
    ensures CurrentFd(ws + [w]) == if Traced(w.fd) then w.fd else CurrentFd(ws)
  {
    Last(ws, w);
  }

  lemma {:induction false} OnlineIsCut(ws: seq<Write>)
    ensures Online(ws) + SwitchFrom(CurrentFd(ws)) == Bracketed(Cut(ws))
  {
    if ws != [] {
      var before, w := ws[..|ws| - 1], ws[|ws| - 1];
      OnlineIsCut(before);
      CutIsMaximal(before);
      CutIsMaximal(ws);
      AddWriteBrackets(Cut(before), Online(before), w);
    }
  }

  // The online marker followed by one close is the offline specification: for
  // any writes on any descriptors and any cut of them into maximal runs, every
  // run gets its start, its payloads, zero-length ones included, and its end.
  lemma {:induction false} OnlineIsOffline(ws: seq<Write>, rs: seq<Run>)
    requires MaximalRuns(rs, ws)
    ensures Online(ws) + SwitchFrom(CurrentFd(ws)) == Bracketed(rs)
  {
    MaximalRunsAreCut(rs, ws);
    OnlineIsCut(ws);
  }
}
