// The tool from end to end: errmark --color=NAME [--copy=FILE] program.

module Tool {
  import opened Base
  import opened Stdio
  import opened Marks
  import opened Runs
  import opened Texts
  import opened Colors
  import opened Tracee
  import opened Tracer
  import opened Errmark
  import opened LogFacts
  import opened LoopFacts
  import opened Bracketing
  import opened Arrival
  import opened Transparency
  import opened CopyFile
  import opened Terminal
  import opened Painting
  import opened Endings

  function Beginning(k: Kernel, stack: Locals): World {
    World(k, State(false, false, -1, stack.(toggle := false), [], [], Running))
  }

  // What the tracee by itself puts on the terminal, with the write, if any, that it
  // has entered and not left.
  function DirectOutput(k: Kernel): seq<Write> {
    Shown(Direct(k).output) + InFlight(Direct(k))
  }

  // errmark with the marks that are set, on a fresh terminal and a fresh copy file.
  // All of the log reaches the device if the tool returns, and if it aborts while
  // the end mark of the current descriptor is set; in any case what is missing comes
  // after the last mark.
  method RunMarked(marker: Marker, copy: bool, k: Kernel, stack: Locals)
    returns (code: nat, mode: Mode, device: seq<byte>, file: seq<byte>)
    requires marker.stdout.device == [] && marker.stdout.pending == [] && marker.curFd == -1
    modifies marker, marker.stdout
    ensures var end, marks := Program(Config(true, copy), Beginning(k, stack)), old(marker.Marks());
            && mode == end.t.mode
            && (mode.Returned? ==> code == mode.status / 256 && (copy ==> file == end.t.copied))
            && device <= Bytes(marks, end.t.log)
            && |Bytes(marks, Settled(marks, end.t.log))| <= |device|
            && (mode.Returned?
                || (mode.Aborted? && end.t.markState && MarkText(marks, End(end.t.curFd)).Some?) ==>
                  device == Bytes(marks, end.t.log))
    ensures var end, marks := Program(Config(true, copy), Beginning(k, stack)), old(marker.Marks());
            var rs := Cut(Erased(end.t.log));
            Launched(Beginning(k, stack)) && AllMarkable(k.todo) && mode.Returned? ==>
              device == RunTexts(marks, rs)
                        + Repeat(EndText(marks, LastFd(rs)), if mode.status == 0 then 1 else 2)
  {
    hide Program, Bytes, Settled, RunTexts, Repeat, EndText, Cut, Launched, AllMarkable;
    var copyFh: Stream? := null;
    if copy {
      copyFh := new Stream();
    }
    var machine := new Machine(k);
    var cmd := new Command(true, copyFh, marker, machine);
    assert cmd.shown == [];
    ghost var end;
    code, mode, end := cmd.Execute(stack);
    device := marker.stdout.device;
    file := if copyFh == null then [] else copyFh.device;
    assert end == Program(Config(true, copy), Beginning(k, stack));
    if Launched(Beginning(k, stack)) && AllMarkable(k.todo) {
      CutIsMaximal(Erased(end.t.log));
      ProgramText(Config(true, copy), Beginning(k, stack), Cut(Erased(end.t.log)), marker.Marks());
    }
    AbortEndsWithMark(Config(true, copy), Beginning(k, stack), marker.Marks());
    assert cmd.shown + Bytes(marker.Marks(), end.t.log) == Bytes(marker.Marks(), end.t.log);
    assert cmd.shown + Bytes(marker.Marks(), Settled(marker.Marks(), end.t.log))
        == Bytes(marker.Marks(), Settled(marker.Marks(), end.t.log));
  }

  lemma {:induction false} DirectIsShown(copy: bool, k: Kernel, stack: Locals, bright: bool, color: nat)
    requires var w, cfg := Beginning(k, stack), Config(true, copy);
             Launched(w) && AllClean(k.todo) && AllArrive(cfg, k.todo) && AllShowable(cfg, k.todo)
    requires k.output == [] && k.delivered == [] && Ends(k.todo)
    ensures var end := Program(Config(true, copy), Beginning(k, stack));
            && end.t.mode == Returned(LastStatus(k.todo))
            && (copy ==> end.t.copied == BytesTo(2, DirectOutput(k)))
            && (color < 8 ==>
                  Render(BLANK, Bytes(ColorMarks(bright, color), end.t.log))
                  == Screen(Ground, DEFAULT, Picture(DirectOutput(k), bright, color)))
  {
    hide Launched, AllClean, AllArrive, AllShowable, AllTold, Program, Picture, Render, Direct, Bytes;
    var w, cfg := Beginning(k, stack), Config(true, copy);
    TracedRunIsDirectRun(cfg, w);
    if copy {
      CopyIsDirect(cfg, w);
    }
    if color < 8 {
      ColoredDirectRun(cfg, w, bright, color);
    }
  }

  // For every colour name, whatever the streams choose to buffer, and every program
  // whose requests succeed, whose traced writes arrive and hold no escape sequence:
  // on a fresh terminal the tracee's own output appears, its fd 2 bytes in the
  // colour and all others in the default, with the terminal in its default state at
  // the end; the copy file has the fd 2 bytes; and the exit code is the upper part
  // of the tracee's status.
  method RunColored(name: string, copy: bool, k: Kernel, stack: Locals)
    returns (ok: bool, code: nat, device: seq<byte>, file: seq<byte>)
    requires var w, cfg := Beginning(k, stack), Config(true, copy);
             Launched(w) && AllClean(k.todo) && AllArrive(cfg, k.todo) && AllShowable(cfg, k.todo)
    requires k.output == [] && k.delivered == [] && Ends(k.todo)
    ensures ok <==> exists bright: bool, color: nat :: color < 8 && name == ColorName(bright, color)
    ensures forall bright: bool, color: nat ::
              color < 8 && name == ColorName(bright, color)
              ==> Render(BLANK, device) == Screen(Ground, DEFAULT, Picture(DirectOutput(k), bright, color))
    ensures forall i :: 0 <= i < 8
              && name == ["black", "red", "green", "yellow", "blue", "magenta", "cyan", "white"][i]
              ==> ok && Render(BLANK, device)
                        == Screen(Ground, Rendition(false, None), Picture(DirectOutput(k), false, i))
    ensures forall i :: 0 <= i < 8
              && name == "bright-" + ["black", "red", "green", "yellow", "blue", "magenta", "cyan", "white"][i]
              ==> ok && Render(BLANK, device)
                        == Screen(Ground, Rendition(false, None), Picture(DirectOutput(k), true, i))
    ensures ok ==> code == LastStatus(k.todo) / 256
    ensures ok && copy ==> file == BytesTo(2, DirectOutput(k))
  {
    hide Launched, AllClean, AllArrive, AllShowable, Program, Picture, Render, Bytes, Settled, EscStart, DirectOutput,
         Beginning;
    LiteralNames();
    device, file, code := [], [], 0;
    var stdout := new Stream();
    var marker := new Marker(stdout);
    ok := OptColor(marker, name);
    if !ok {
      return;
    }
    ghost var marks := marker.Marks();
    var mode;
    code, mode, device, file := RunMarked(marker, copy, k, stack);
    DirectIsShown(copy, k, stack, false, 8);
    forall bright: bool, color: nat | color < 8 && name == ColorName(bright, color)
      ensures Render(BLANK, device) == Screen(Ground, DEFAULT, Picture(DirectOutput(k), bright, color))
    {
      DirectIsShown(copy, k, stack, bright, color);
      assert marks == ColorMarks(bright, color);
    }
  }

  // And whatever fails on the way: when the tool has returned or aborted, the
  // terminal is in its default rendition, though payload may have been lost in the
  // buffer.
  method RunColoredAnyway(name: string, copy: bool, k: Kernel, stack: Locals)
    returns (ok: bool, mode: Mode, device: seq<byte>)
    requires var w, cfg := Beginning(k, stack), Config(true, copy);
             Launched(w) && AllShowable(cfg, k.todo)
    ensures ok <==> exists bright: bool, color: nat :: color < 8 && name == ColorName(bright, color)
    ensures ok ==> mode == Program(Config(true, copy), Beginning(k, stack)).t.mode
    ensures ok && (mode.Returned? || mode.Aborted?) ==>
              Render(BLANK, device).mode.Ground? && Render(BLANK, device).look == DEFAULT
  {
    hide Launched, AllShowable, Program, Render, Bytes, Settled, EscStart;
    device, mode := [], Running;
    var stdout := new Stream();
    var marker := new Marker(stdout);
    ok := OptColor(marker, name);
    if !ok {
      return;
    }
    ghost var marks := marker.Marks();
    var code, file;
    code, mode, device, file := RunMarked(marker, copy, k, stack);
    ghost var bright: bool, color: nat :| color < 8 && name == ColorName(bright, color);
    assert marks == ColorMarks(bright, color);
    DeviceIsRestored(Config(true, copy), Beginning(k, stack), bright, color, device);
  }
}
