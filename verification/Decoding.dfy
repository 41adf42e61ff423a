// The coloured output can be read back: from the bytes alone one recovers which
// descriptor wrote what, in maximal runs.

module Decoding {
  import opened Base
  import opened Marks
  import opened Runs
  import opened Texts
  import opened Colors
  import opened Tracer
  import opened LogFacts
  import opened LoopFacts
  import opened Bracketing
  import opened Terminal

  // ---- encoding, run by run

  // One run as one write.
  function Flat(r: Run): Write {
    Write(r.fd, Joined(r.chunks))
  }

  function Flats(rs: seq<Run>): seq<Write> {
    seq(|rs|, i requires 0 <= i < |rs| => Flat(rs[i]))
  }

  function EncodeOne(w: Write, start: seq<byte>, end: seq<byte>): seq<byte> {
    if w.fd == 2 then start + w.data + end else w.data
  }

  function Encode(ws: seq<Write>, start: seq<byte>, end: seq<byte>): seq<byte> {
    if ws == [] then [] else EncodeOne(ws[0], start, end) + Encode(ws[1..], start, end)
  }

  lemma {:induction false} EncodeSnoc(ws: seq<Write>, w: Write, start: seq<byte>, end: seq<byte>)
    ensures Encode(ws + [w], start, end) == Encode(ws, start, end) + EncodeOne(w, start, end)
  {
    if ws == [] {
      assert ws + [w] == [w];
    } else {
      assert (ws + [w])[1..] == ws[1..] + [w];
      EncodeSnoc(ws[1..], w, start, end);
    }
  }

  lemma {:induction false} BracketBytes(rs: seq<Run>, bright: bool, color: nat)
    requires color < 8 && WellCut(rs)
    ensures Bytes(ColorMarks(bright, color), Bracketed(rs))
            == Encode(Flats(rs), EscStart(bright, color), ESC_END)
  {
    hide Bytes, Encode, EncodeOne, ColorMarks, BracketRun, Flat, EscStart, Flats, Bracketed;
    var t := ColorMarks(bright, color);
    if rs == [] {
      NothingBytes(t, EscStart(bright, color), ESC_END);
    } else {
      var init, r := rs[..|rs| - 1], rs[|rs| - 1];
      assert rs == init + [r] && Traced(r.fd);
      BracketBytes(init, bright, color);
      BytesConcat(t, Bracketed(init), BracketRun(r));
      RunsSnoc(init, r);
      FlatsSnoc(init, r);
      EncodeSnoc(Flats(init), Flat(r), EscStart(bright, color), ESC_END);
      RunBytes(r, bright, color);
    }
  }

  lemma {:induction false} NothingBytes(t: Table, start: seq<byte>, end: seq<byte>)
    ensures Bytes(t, Bracketed([])) == Encode(Flats([]), start, end)
  {
  }

  lemma {:induction false} FlatsSnoc(rs: seq<Run>, r: Run)
    ensures Flats(rs + [r]) == Flats(rs) + [Flat(r)]
  {
  }

  lemma {:induction false} RunBytes(r: Run, bright: bool, color: nat)
    requires color < 8 && Traced(r.fd)
    ensures Bytes(ColorMarks(bright, color), BracketRun(r)) == EncodeOne(Flat(r), EscStart(bright, color), ESC_END)
  {
    var t := ColorMarks(bright, color);
    BytesConcat(t, [Start(r.fd)] + Payloads(r), [End(r.fd)]);
    BytesConcat(t, [Start(r.fd)], Payloads(r));
    OneItem(t, Start(r.fd));
    OneItem(t, End(r.fd));
    PayloadBytes(t, r.fd, r.chunks);
    assert r == Run(r.fd, r.chunks);
  }

  // ---- decoding

  // Text up to the next ESC belongs to the descriptor being read; the escape
  // sequence that stops it, of the length given for either kind, switches.
  function Decode(bytes: seq<byte>, fd: int, startLen: nat, endLen: nat): seq<Write>
    decreases |bytes|
  {
    var n := First(bytes, ESC);
    var skip := n + if fd == 1 then startLen else endLen;
    if n == |bytes| then [Write(fd, bytes)]
    else if skip <= n || |bytes| < skip then [Write(fd, bytes[..n])]
    else [Write(fd, bytes[..n])] + Decode(bytes[skip..], 3 - fd, startLen, endLen)
  }

  // Runs of fd 1 with nothing in them cannot be seen at either end.
  function Normal(ws: seq<Write>): seq<Write> {
    var front := if ws == [] || ws[0].fd == 2 then [Write(1, [])] + ws else ws;
    if front[|front| - 1].fd == 2 then front + [Write(1, [])] else front
  }

  // From fd 1 to fd 1, changing every time.
  ghost predicate Alternating(ws: seq<Write>, fd: int) {
    && ws != [] && ws[0].fd == fd && ws[|ws| - 1].fd == 1
    && (forall i :: 0 <= i < |ws| ==> Traced(ws[i].fd))
    && (forall i :: 0 < i < |ws| ==> ws[i - 1].fd != ws[i].fd)
  }

  // Bytes of a sequence of runs of which the first has begun already.
  function Rest(ws: seq<Write>, start: seq<byte>, end: seq<byte>): seq<byte>
    requires ws != []
  {
    ws[0].data + (if ws[0].fd == 2 then end else []) + Encode(ws[1..], start, end)
  }

  lemma {:induction false} FirstEscape(data: seq<byte>, more: seq<byte>)
    requires ESC !in data && (more == [] || more[0] == ESC)
    ensures First(data + more, ESC) == |data|
  {
    FirstIsFirst(data + more, ESC, |data|);
  }

  // One step of the decoder, over text that stops at an escape sequence or at the
  // end.
  lemma {:induction false} DecodeStep(data: seq<byte>, mark: seq<byte>, more: seq<byte>, fd: int,
                                      startLen: nat, endLen: nat)
    requires ESC !in data
    requires |mark| == if fd == 1 then startLen else endLen
    ensures Decode(data, fd, startLen, endLen) == [Write(fd, data)]
    ensures mark != [] && mark[0] == ESC ==>
              Decode(data + (mark + more), fd, startLen, endLen)
              == [Write(fd, data)] + Decode(more, 3 - fd, startLen, endLen)
  {
    assert data + [] == data;
    FirstEscape(data, []);
    if mark != [] && mark[0] == ESC {
      var bytes := data + (mark + more);
      FirstEscape(data, mark + more);
      assert bytes[..|data|] == data;
      assert bytes[|data| + |mark|..] == more;
    }
  }

  lemma {:induction false} AlternatingTail(ws: seq<Write>)
    requires |ws| >= 2 && Alternating(ws, ws[0].fd) && NoEscape(ws)
    ensures Alternating(ws[1..], ws[1].fd) && NoEscape(ws[1..])
    ensures Traced(ws[0].fd) && ws[1].fd == 3 - ws[0].fd
  {
  }

  lemma {:induction false} DecodeRest(ws: seq<Write>, start: seq<byte>, end: seq<byte>)
    requires ws != [] && Alternating(ws, ws[0].fd) && NoEscape(ws)
    requires start != [] && start[0] == ESC && end != [] && end[0] == ESC
    ensures Decode(Rest(ws, start, end), ws[0].fd, |start|, |end|) == ws
    decreases |ws|
  {
    hide Decode, Rest, Alternating;
    var w, tail := ws[0], ws[1..];
    assert ESC !in w.data;
    if tail == [] {
      RestOfLast(ws, start, end);
      DecodeStep(w.data, start, [], 1, |start|, |end|);
    } else {
      var mark := if w.fd == 2 then end else start;
      AlternatingTail(ws);
      RestOfTail(ws, start, end);
      DecodeStep(w.data, mark, Rest(tail, start, end), w.fd, |start|, |end|);
      DecodeRest(tail, start, end);
      assert ws == [w] + tail;
    }
  }

  lemma {:induction false} RestOfLast(ws: seq<Write>, start: seq<byte>, end: seq<byte>)
    requires |ws| == 1 && Alternating(ws, ws[0].fd)
    ensures Rest(ws, start, end) == ws[0].data && ws == [Write(1, ws[0].data)]
  {
    assert ws[0].data + [] + [] == ws[0].data;
  }

  lemma {:induction false} RestOfTail(ws: seq<Write>, start: seq<byte>, end: seq<byte>)
    requires |ws| >= 2 && Traced(ws[0].fd) && Traced(ws[1].fd) && ws[0].fd != ws[1].fd
    ensures Rest(ws, start, end)
            == ws[0].data + ((if ws[0].fd == 2 then end else start) + Rest(ws[1..], start, end))
  {
    var tail := ws[1..];
    assert Encode(tail, start, end) == EncodeOne(tail[0], start, end) + Encode(tail[1..], start, end);
  }

  lemma {:induction false} NormalAlternates(ws: seq<Write>)
    requires (forall i :: 0 <= i < |ws| ==> Traced(ws[i].fd)) && NoEscape(ws)
    requires forall i :: 0 < i < |ws| ==> ws[i - 1].fd != ws[i].fd
    ensures Alternating(Normal(ws), 1) && NoEscape(Normal(ws))
  {
  }

  lemma {:induction false} NormalEncodes(ws: seq<Write>, start: seq<byte>, end: seq<byte>)
    ensures Normal(ws) != []
    ensures Encode(Normal(ws), start, end) == Encode(ws, start, end)
  {
    var front := if ws == [] || ws[0].fd == 2 then [Write(1, [])] + ws else ws;
    if front != ws {
      assert front[1..] == ws;
    }
    EncodeSnoc(front, Write(1, []), start, end);
  }

  ghost predicate RunsWithoutEscape(rs: seq<Run>) {
    forall i :: 0 <= i < |rs| ==> ESC !in Joined(rs[i].chunks)
  }

  // Decoding what a run of errmark --color has put on the terminal up to the
  // first close gives back its maximal runs, up to empty fd 1 runs at the ends.
  lemma {:induction false} DecodeInvertsMarking(rs: seq<Run>, bright: bool, color: nat)
    requires color < 8 && WellCut(rs) && RunsWithoutEscape(rs)
    ensures Decode(Bytes(ColorMarks(bright, color), Bracketed(rs)), 1, 7, 3) == Normal(Flats(rs))
  {
    var start, end, ws := EscStart(bright, color), ESC_END, Flats(rs);
    BracketBytes(rs, bright, color);
    NormalAlternates(ws);
    NormalEncodes(ws, start, end);
    RestIsEncode(Normal(ws), start, end);
    hide Bytes, Bracketed, Encode, Rest, Decode, Flats, Normal, ColorMarks;
    DecodeRest(Normal(ws), start, end);
  }

  lemma {:induction false} RestIsEncode(ws: seq<Write>, start: seq<byte>, end: seq<byte>)
    requires ws != [] && ws[0].fd == 1
    ensures Rest(ws, start, end) == Encode(ws, start, end)
  {
    assert ws[0].data + [] == ws[0].data;
  }

  // So two runs look the same exactly when they differ in nothing else.
  lemma {:induction false} UniquelyDecodable(rs: seq<Run>, qs: seq<Run>, bright: bool, color: nat)
    requires color < 8 && WellCut(rs) && RunsWithoutEscape(rs) && WellCut(qs) && RunsWithoutEscape(qs)
    ensures Bytes(ColorMarks(bright, color), Bracketed(rs)) == Bytes(ColorMarks(bright, color), Bracketed(qs))
            <==> Normal(Flats(rs)) == Normal(Flats(qs))
  {
    DecodeInvertsMarking(rs, bright, color);
    DecodeInvertsMarking(qs, bright, color);
    BracketBytes(rs, bright, color);
    BracketBytes(qs, bright, color);
    NormalEncodes(Flats(rs), EscStart(bright, color), ESC_END);
    NormalEncodes(Flats(qs), EscStart(bright, color), ESC_END);
  }

  // The output of a program that has returned starts with a text that decodes to
  // the maximal runs of its payloads; only repeated ends of the last run follow.
  lemma {:induction false} OutputDecodes(cfg: Config, w: World, rs: seq<Run>, bright: bool, color: nat)
    requires Launched(w) && AllMarkable(w.k.todo) && color < 8 && Program(cfg, w).t.mode.Returned?
    requires MaximalRuns(rs, Erased(Program(cfg, w).t.log)) && RunsWithoutEscape(rs)
    ensures var t := Program(cfg, w).t;
            var first := |Bracketed(rs)|;
            && first <= |t.log|
            && Decode(Bytes(ColorMarks(bright, color), t.log[..first]), 1, 7, 3) == Normal(Flats(rs))
            && t.log[first..] == Repeat(SwitchFrom(LastFd(rs)), if t.mode.status == 0 then 1 else 2)
  {
    hide Program, Decode, Bracketed, Repeat;
    ProgramIsBracketed(cfg, w, rs);
    DecodeInvertsMarking(rs, bright, color);
    var t := Program(cfg, w).t;
    var tail := Repeat(SwitchFrom(LastFd(rs)), if t.mode.status == 0 then 1 else 2);
    assert t.log == Bracketed(rs) + tail;
    assert t.log[..|Bracketed(rs)|] == Bracketed(rs);
  }
}
