/**
 Small programs on which the debugger departs from what its user would expect.  Each shows that
 a condition in `SessionRuns` is needed.
 */
module Corners {
  import opened MachineWords
  import opened Processor
  import opened Runs
  import opened SessionSpec
  import opened SessionRuns

  predicate Mapped(a: Word) {
    1 <= a < 64
  }

  function Nops(): Memory {
    map a: Word | 0 <= a < 64 && Mapped(a) :: 0x90
  }

  /** A program of jumps: from each address in `next` to another, ending anywhere else. */
  function Jumps(next: map<Word, Word>): Cpu -> Outcome {
    (c: Cpu) => if c.rip in next then Next(c.(rip := next[c.rip])) else Exit(0)
  }

  ghost function Jumper(next: map<Word, Word>): Program {
    Program(Jumps(next), iset c: Cpu | c.mem == Nops(), {16, 32})
  }

  function Image(rip: Word): Cpu {
    Cpu(rip, map[], Nops())
  }

  lemma JumperDebuggable(next: map<Word, Word>)
    ensures Debuggable(Jumper(next))
    ensures forall a | 0 <= a < LIMIT :: Image(a) in Jumper(next).good
  {
  }

  const FRESH := View(NotLoaded, [], 0, 0, 0, [])

  /** A session so far: `Image(32)` started, a breakpoint at 16, and `cont` to it. */
  ghost function AtSixteen(next: map<Word, Word>): View {
    ContView(Jumps(next), BreakView(StartView(LoadView(FRESH), Image(32)), 16))
  }

  lemma ReportsSixteen(next: map<Word, Word>)
    requires 32 in next && next[32] == 16
    ensures AtSixteen(next) == View(Running(Image(16)), [Entry(0, 16)], 1, 16, 16, [Hit(16)])
    ensures Addrs(AtSixteen(next).table) == {16}
  {
    var v := BreakView(StartView(LoadView(FRESH), Image(32)), 16);
    assert v == View(Running(Image(32)), [Entry(0, 16)], 1, 0, 0, []);
    assert Addrs(v.table) == {16};
    GoesUnfold(Jumps(next), At({16}), Image(32));
    GoesUnfold(Jumps(next), At({16}), Image(16));
  }

  /** A loop through a breakpoint: stepped off once, it is never reported nor left again, though
      the program itself goes round for ever. */
  lemma LoopLosesItsBreakpoint(cmds: seq<Command>)
    requires OnlyRuns(cmds)
    ensures var next := map[32 := 16, 16 := 32]; var step := Jumps(next);
      var w := SiView(step, SiView(step, AtSixteen(next)));
      && w.phase == Running(Image(16)) && RunsIntoForgotten(step, w)
      && ScriptView(step, w, cmds).phase == w.phase && ScriptView(step, w, cmds).out == [Hit(16)]
  {
    var next := map[32 := 16, 16 := 32];
    var p := Jumper(next);
    ReportsSixteen(next);
    JumperDebuggable(next);
    var w := SiView(p.step, SiView(p.step, AtSixteen(next)));
    assert w == View(Running(Image(16)), [Entry(0, 16)], 1, 16, 0, [Hit(16)]);
    GoesUnfold(p.step, At({16}), Image(16));
    ForgottenForever(p, w, cmds);
  }

  /** `start` forgets the breakpoints but not the remembered addresses: in the second process the
      same breakpoint is passed in silence. */
  lemma RestartSwallowsTheReport()
    ensures var next := map[32 := 16]; var step := Jumps(next);
      var w := BreakView(StartView(AtSixteen(next), Image(32)), 16);
      && ContReturns(step, w) && MeetsRemembered(step, w)
      && ContView(step, w).out == [Hit(16), Terminated(0)] && !ReportsFirst(step, w, ContView(step, w))
  {
    var next := map[32 := 16];
    var step := Jumps(next);
    ReportsSixteen(next);
    var w := BreakView(StartView(AtSixteen(next), Image(32)), 16);
    assert w == View(Running(Image(32)), [Entry(1, 16)], 2, 16, 16, [Hit(16)]);
    assert Addrs(w.table) == {16} && {16} - {16} == {};
    GoesUnfold(step, At({16}), Image(32));
    GoesUnfold(step, At({16}), Image(16));
    GoesUnfold(step, At({}), Image(16));
    GoesUnfold(step, At({}), Image(32));
    assert ContView(step, w) == Finish(w.(bpaddrNow := 0), 0);
  }

  /** A one-byte instruction at a breakpoint is executed by `si`, and then undone in `rip` only. */
  lemma OneByteInstructionIsRewound()
    ensures var next := map[32 := 16, 16 := 17]; var step := Jumps(next); var v := AtSixteen(next);
      && step(Image(16)) == Next(Image(17))
      && SiView(step, v).phase == Running(Image(16))
      && !StepsClear(step, v)
  {
    ReportsSixteen(map[32 := 16, 16 := 17]);
  }

  /** `set rip` onto a breakpoint after the remembered one was deleted breaks the guard, and
      `cont` then writes `int3` where no breakpoint is. */
  lemma SetRipSmudgesTheProgram()
    ensures var next := map[32 := 16]; var step := Jumps(next);
      var v := SetView(BreakView(DeleteView(AtSixteen(next), 0), 32), Rip, 32);
      var w := ContView(step, v);
      && !Guard(v) && ContReturns(step, v)
      && Addrs(w.table) == {32} && w.phase == Running(Image(32).(mem := Nops()[16 := INT3]))
  {
    var next := map[32 := 16];
    ReportsSixteen(next);
    var v := SetView(BreakView(DeleteView(AtSixteen(next), 0), 32), Rip, 32);
    assert v == View(Running(Image(32)), [Entry(1, 32)], 2, 32, 16, [Hit(16)]);
    assert Addrs(v.table) == {32};
    assert WordMapped(Nops(), 16);
    GoesUnfold(Jumps(next), At({32}), Image(32));
  }
}
