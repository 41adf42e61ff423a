// What a terminal makes of the bytes: a fold that obeys Select Graphic Rendition
// (SGR, section 8.3.117 of ECMA-48) and shows every other byte in the current
// rendition.

module Terminal {
  import opened Base
  import opened Marks
  import opened Runs
  import opened Colors

  datatype Rendition = Rendition(bold: bool, fg: Option<nat>)

  const DEFAULT := Rendition(false, None)

  datatype Cell = Cell(b: byte, look: Rendition)

  // Csi collects the parameter bytes of a control sequence.
  datatype Scan = Ground | Escape | Csi(params: seq<byte>)

  datatype Screen = Screen(mode: Scan, look: Rendition, cells: seq<Cell>)

  const BLANK := Screen(Ground, DEFAULT, [])

  // ---- the terminal

  function Number(digits: seq<byte>, sofar: nat): nat {
    if digits == [] then sofar
    else if 48 <= digits[0] <= 57 then Number(digits[1..], 10 * sofar + (digits[0] - 48))
    else Number(digits[1..], sofar)
  }

  function Aspect(look: Rendition, n: nat): Rendition {
    if n == 0 then DEFAULT
    else if n == 1 then look.(bold := true)
    else if n == 22 then look.(bold := false)
    else if 30 <= n <= 37 then look.(fg := Some(n - 30))
    else if n == 39 then look.(fg := None)
    else look
  }

  // Parameters are separated by semicolons, and a missing one means 0.
  function Sgr(look: Rendition, params: seq<byte>): Rendition
    decreases |params|
  {
    var n := First(params, 59);
    var look' := Aspect(look, Number(params[..n], 0));
    if n < |params| then Sgr(look', params[n + 1..]) else look'
  }

  function Feed(s: Screen, b: byte): Screen {
    match s.mode
    case Ground => if b == ESC then s.(mode := Escape) else s.(cells := s.cells + [Cell(b, s.look)])
    case Escape => if b == 91 then s.(mode := Csi([])) else s.(mode := Ground)
    case Csi(params) =>
      if 0x40 <= b <= 0x7e then
        s.(mode := Ground, look := if b == 109 then Sgr(s.look, params) else s.look)
      else
        s.(mode := Csi(params + [b]))
  }

  function Render(s: Screen, bytes: seq<byte>): Screen
    decreases |bytes|
  {
    if bytes == [] then s else Render(Feed(s, bytes[0]), bytes[1..])
  }

  lemma {:induction false} RenderConcat(s: Screen, a: seq<byte>, b: seq<byte>)
    ensures Render(s, a + b) == Render(Render(s, a), b)
    decreases |a|
  {
    if a == [] {
      assert a + b == b;
    } else {
      assert (a + b)[1..] == a[1..] + b;
      RenderConcat(Feed(s, a[0]), a[1..], b);
    }
  }

  // ---- marks and payload on the terminal

  function Cells(data: seq<byte>, look: Rendition): seq<Cell> {
    seq(|data|, i requires 0 <= i < |data| => Cell(data[i], look))
  }

  lemma {:induction false} RenderPlain(s: Screen, data: seq<byte>)
    requires s.mode.Ground? && ESC !in data
    ensures Render(s, data) == s.(cells := s.cells + Cells(data, s.look))
    decreases |data|
  {
    if data == [] {
      assert s.cells + [] == s.cells;
    } else {
      var s' := Feed(s, data[0]);
      RenderPlain(s', data[1..]);
      assert s'.cells + Cells(data[1..], s.look) == s.cells + Cells(data, s.look);
    }
  }

  function Colored(bright: bool, color: nat): Rendition {
    Rendition(bright, Some(color))
  }

  // Every start sequence of the table selects its colour from any state, and the
  // end sequence returns to the default.
  lemma {:induction false} RenderEscStart(s: Screen, bright: bool, color: nat)
    requires s.mode.Ground? && color < 8
    ensures Render(s, EscStart(bright, color)) == s.(look := Colored(bright, color))
  {
    var e := EscStart(bright, color);
    var p: seq<byte> := [if bright then 49 else 48, 59, 51, 48 + color];
    var s3 := s.(mode := Csi([]));
    assert Feed(Feed(s, e[0]), e[1]) == s3;
    var s4 := Feed(Feed(Feed(Feed(s3, e[2]), e[3]), e[4]), e[5]);
    assert [] + [e[2]] + [e[3]] + [e[4]] + [e[5]] == p;
    assert s4 == s.(mode := Csi(p));
    SgrOfColor(s.look, bright, color, p);
    assert Feed(s4, e[6]) == s.(look := Colored(bright, color));
    Render7(s, e);
  }

  lemma {:induction false} Render7(s: Screen, e: seq<byte>)
    requires |e| == 7
    ensures Render(s, e) == Feed(Feed(Feed(Feed(Feed(Feed(Feed(s, e[0]), e[1]), e[2]), e[3]), e[4]), e[5]), e[6])
  {
    hide Feed;
    Render3(s, e[..3]);
    Render3(Render(s, e[..3]), e[3..6]);
    RenderConcat(s, e[..3], e[3..]);
    RenderConcat(Render(s, e[..3]), e[3..6], e[6..]);
    assert e == e[..3] + e[3..] && e[3..] == e[3..6] + e[6..] && e[6..] == [e[6]];
    var s6 := Render(Render(s, e[..3]), e[3..6]);
    assert Render(s6, [e[6]]) == Render(Feed(s6, e[6]), []);
  }

  lemma {:induction false} Render3(s: Screen, e: seq<byte>)
    requires |e| == 3
    ensures Render(s, e) == Feed(Feed(Feed(s, e[0]), e[1]), e[2])
  {
    hide Feed;
    assert e[1..][1..] == [e[2]];
    assert Render(Feed(Feed(s, e[0]), e[1]), [e[2]]) == Render(Feed(Feed(Feed(s, e[0]), e[1]), e[2]), []);
  }

  lemma {:induction false} SgrOfColor(look: Rendition, bright: bool, color: nat, p: seq<byte>)
    requires color < 8 && p == [if bright then 49 else 48, 59, 51, 48 + color]
    ensures Sgr(look, p) == Colored(bright, color)
  {
    FirstIsFirst(p, 59, 1);
    var q := p[2..];
    FirstIsFirst(q, 59, 2);
    assert p[..1] == [p[0]] && q[..2] == q;
    assert Number([p[0]], 0) == p[0] - 48;
    assert q[1..] == [q[1]];
    assert Number(q, 0) == Number([q[1]], 3) == 30 + color;
  }

  // ---- whole logs

  // errmark --color: marks on fd 2 only.
  function ColorMarks(bright: bool, color: nat): Table
    requires color < 8
  {
    Table(None, None, Some(EscStart(bright, color)), Some(ESC_END))
  }

  // The rendition that output to `fd` must have.
  function LookOf(fd: int, bright: bool, color: nat): Rendition {
    if fd == 2 then Colored(bright, color) else DEFAULT
  }

  // The writes to fd 1 and 2, byte by byte, each in the look of its descriptor.
  function Picture(ws: seq<Write>, bright: bool, color: nat): seq<Cell> {
    if ws == [] then []
    else
      var w := ws[|ws| - 1];
      Picture(ws[..|ws| - 1], bright, color)
      + if Traced(w.fd) then Cells(w.data, LookOf(w.fd, bright, color)) else []
  }

  // The same, a write at a time and with the renditions spelled out.
  lemma {:induction false} PictureIs(ws: seq<Write>, data: seq<byte>, bright: bool, color: nat)
    ensures Picture(ws + [Write(1, data)], bright, color)
            == Picture(ws, bright, color) + Cells(data, Rendition(false, None))
    ensures Picture(ws + [Write(2, data)], bright, color)
            == Picture(ws, bright, color) + Cells(data, Rendition(bright, Some(color)))
    ensures Picture([], bright, color) == []
  {
    Last(ws, Write(1, data));
    Last(ws, Write(2, data));
  }

  predicate NoEscape(ws: seq<Write>) {
    forall i :: 0 <= i < |ws| ==> ESC !in ws[i].data
  }

  lemma {:induction false} RenderEscEnd(s: Screen)
    requires s.mode.Ground?
    ensures Render(s, ESC_END) == s.(look := DEFAULT)
  {
    Render3(s, ESC_END);
    assert First([], 59) == 0;
  }

  lemma {:induction false} RenderSwitch(s: Screen, cur: int, fd: int, bright: bool, color: nat)
    requires color < 8 && s.mode.Ground? && s.look == LookOf(cur, bright, color) && Traced(fd)
    ensures Render(s, Bytes(ColorMarks(bright, color), BeforeItems(cur, fd, SOME_BUFFER, SOME_LENGTH)))
            == s.(look := LookOf(fd, bright, color))
  {
    var t := ColorMarks(bright, color);
    if fd != cur {
      BytesConcat(t, SwitchFrom(cur), SwitchTo(fd));
      RenderClose(s, cur, bright, color);
      RenderConcat(s, Bytes(t, SwitchFrom(cur)), Bytes(t, SwitchTo(fd)));
      OneItem(t, Start(fd));
      if fd == 2 {
        RenderEscStart(s.(look := DEFAULT), bright, color);
      }
    }
  }

  // Closing any number of times ends in the default, once there is anything to
  // close.
  lemma {:induction false} RenderClose(s: Screen, cur: int, bright: bool, color: nat)
    requires color < 8 && s.mode.Ground?
    requires s.look == LookOf(cur, bright, color) || s.look == DEFAULT
    ensures Render(s, Bytes(ColorMarks(bright, color), SwitchFrom(cur))) == s.(look := DEFAULT)
  {
    if Traced(cur) {
      OneItem(ColorMarks(bright, color), End(cur));
      if cur == 2 {
        RenderEscEnd(s);
      }
    }
  }

  lemma {:induction false} RenderCloses(s: Screen, cur: int, bright: bool, color: nat, n: nat)
    requires color < 8 && s.mode.Ground? && 0 < n
    requires s.look == LookOf(cur, bright, color) || s.look == DEFAULT
    ensures Render(s, Bytes(ColorMarks(bright, color), Repeat(SwitchFrom(cur), n))) == s.(look := DEFAULT)
    decreases n
  {
    var t, one, more := ColorMarks(bright, color), SwitchFrom(cur), Repeat(SwitchFrom(cur), n - 1);
    RenderClose(s, cur, bright, color);
    BytesConcat(t, one, more);
    RenderConcat(s, Bytes(t, one), Bytes(t, more));
    if n > 1 {
      RenderCloses(s.(look := DEFAULT), cur, bright, color, n - 1);
    }
  }

  lemma {:induction false} RenderOnline(ws: seq<Write>, bright: bool, color: nat)
    requires color < 8 && NoEscape(ws)
    ensures Render(BLANK, Bytes(ColorMarks(bright, color), Online(ws)))
            == Screen(Ground, LookOf(CurrentFd(ws), bright, color), Picture(ws, bright, color))
  {
    if ws != [] {
      var t, before, w := ColorMarks(bright, color), ws[..|ws| - 1], ws[|ws| - 1];
      RenderOnline(before, bright, color);
      var s := Screen(Ground, LookOf(CurrentFd(before), bright, color), Picture(before, bright, color));
      hide Online, Bytes, Render, BeforeItems, Cells, ColorMarks, LookOf;
      OnlineLast(ws);
      if Traced(w.fd) {
        RenderStep(s, CurrentFd(before), w, bright, color);
        BytesConcat(t, Online(before), Step(CurrentFd(before), w));
        RenderConcat(BLANK, Bytes(t, Online(before)), Bytes(t, Step(CurrentFd(before), w)));
      } else {
        assert Online(before) + [] == Online(before);
        assert Picture(before, bright, color) + [] == Picture(before, bright, color);
      }
    }
  }

  lemma {:induction false} OnlineLast(ws: seq<Write>)
    requires ws != []
    ensures Online(ws) == Online(ws[..|ws| - 1]) + Step(CurrentFd(ws[..|ws| - 1]), ws[|ws| - 1])
  {
  }

  lemma {:induction false} RenderStep(s: Screen, cur: int, w: Write, bright: bool, color: nat)
    requires color < 8 && s.mode.Ground? && s.look == LookOf(cur, bright, color)
    requires Traced(w.fd) && ESC !in w.data
    ensures var look := LookOf(w.fd, bright, color);
            Render(s, Bytes(ColorMarks(bright, color), Step(cur, w)))
            == s.(look := look, cells := s.cells + Cells(w.data, look))
  {
    var t, items := ColorMarks(bright, color), BeforeItems(cur, w.fd, SOME_BUFFER, SOME_LENGTH);
    var look := LookOf(w.fd, bright, color);
    BytesConcat(t, items, [Payload(w.fd, w.data)]);
    OneItem(t, Payload(w.fd, w.data));
    RenderConcat(s, Bytes(t, items), w.data);
    RenderSwitch(s, cur, w.fd, bright, color);
    RenderPlain(s.(look := look), w.data);
  }
}
