// A run in which the tracer loses output: one byte, the last of a page with
// nothing mapped after it.

module LostWrite {
  import opened Base
  import opened RemoteMemory
  import opened RemoteReadFacts
  import opened Marks
  import opened Runs
  import opened Tracee
  import opened Tracer
  import opened LogFacts
  import opened LoopFacts
  import opened Arrival
  import opened Transparency

  const PAGE := 4096
  const LETTER: byte := 65

  function LetterAt(a: Word): byte {
    LETTER
  }

  const ONE_PAGE := Memory(map a: Word | PAGE <= a < 2 * PAGE :: LetterAt(a), map[])
  const LAST_BYTE: Regs := Regs(SYS_WRITE, 1, 8191, 1, 0, [])

  const STOPPED := 0x57f  // by SIGTRAP

  function Plainly(status: nat, op: Op): Event {
    Event(status, op, 0, 0, 0, [], true)
  }

  const SCRIPT: seq<Event> :=
    [Plainly(STOPPED, WriteEntry(LAST_BYTE, ONE_PAGE)), Plainly(STOPPED, WriteExit(Takes(1))), Plainly(0, Gone)]

  const START := World(
    Kernel(SCRIPT, Plainly(0, Gone), false, LAST_BYTE, ONE_PAGE, false, [], []),
    State(false, false, -1, Locals(false, 0, 0, 0, LAST_BYTE), [], [], Running))

  lemma {:induction false} OnePageIsPaged()
    ensures PageSize(PAGE) && Paged(ONE_PAGE, PAGE)
    ensures Overhangs(ONE_PAGE, 8191)
    ensures Due(LAST_BYTE, ONE_PAGE) == [LETTER]
  {
    forall a: Word, b: Word | a in ONE_PAGE.bytes && a / PAGE == b / PAGE ensures b in ONE_PAGE.bytes {
    }
    assert At(8191, 1) == 8192;
    assert Available(ONE_PAGE, 8191, 1) == [LetterAt(8191)] + Available(ONE_PAGE, 8192, 0);
  }

  lemma {:induction false} ScriptIsDisciplined()
    ensures Disciplined(SCRIPT, false) && Ends(SCRIPT) && AllClean(SCRIPT) && LastStatus(SCRIPT) == 0
  {
    assert SCRIPT[1..] == [Plainly(STOPPED, WriteExit(Takes(1))), Plainly(0, Gone)];
    assert SCRIPT[1..][1..] == [Plainly(0, Gone)];
    assert Disciplined(SCRIPT[1..][1..], false);
    assert Disciplined(SCRIPT[1..], true);
  }

  lemma {:induction false} DirectDelivers()
    ensures Direct(START.k).delivered == [LAST_BYTE.(retn := 1)]
  {
    var d := START.k;
    DirectStepCases(d);
    var d1 := DirectStep(d);
    DirectStepCases(d1);
    var d2 := DirectStep(d1);
    DirectStepCases(d2);
    var d3 := DirectStep(d2);
    OnePageIsPaged();
    hide DirectStep, Result, Available;
    assert Direct(d) == Direct(d1) == Direct(d2) == Direct(d3) == d3;
    DirectResult(LAST_BYTE, ONE_PAGE);
    WholeIsMapped(ONE_PAGE, 8191, 1);
  }

  // By itself the program writes a letter and is told 1; under the tracer the
  // letter never appears and it is told 1 all the same.
  lemma {:induction false} LastByteIsLost()
    ensures Launched(START) && AllClean(START.k.todo) && START.k.output == [] && START.k.delivered == []
    ensures var w', d := Program(Config(true, false), START), Direct(START.k);
            && w'.t.mode == Returned(0)
            && Erased(w'.t.log) == [Write(1, [])]
            && Shown(d.output) + InFlight(d) == [Write(1, [LETTER])]
            && d.delivered == [LAST_BYTE.(retn := 1)]
            && w'.k.delivered == [LAST_BYTE.(arg3 := 0, retn := 1)]
  {
    ScriptIsDisciplined();
    OnePageIsPaged();
    DirectDelivers();
    PagedRead(ONE_PAGE, PAGE, 8191, 1);
    TracedRunIsDirectRun(Config(true, false), START);
    hide Program, Direct, Paged, Available, Overhangs, Disciplined;
    assert SCRIPT[1..] == [Plainly(STOPPED, WriteExit(Takes(1))), Plainly(0, Gone)];
    assert SentAll(Config(true, false), SCRIPT[1..][1..]) == [];
    assert SentAll(Config(true, false), SCRIPT[1..]) == [];
    assert DueAll(SCRIPT[1..][1..]) == [];
    assert DueAll(SCRIPT[1..]) == [];
  }
}
