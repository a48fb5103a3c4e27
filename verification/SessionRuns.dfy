/** Theorems about single commands and whole sessions, over the clean process. */
module SessionRuns {
  import opened MachineWords
  import opened Processor
  import opened Runs
  import opened SessionSpec

  // ---------- cont ----------

  /** Where the program next stands at a breakpoint other than the remembered one. */
  ghost function NextStop(step: Cpu -> Outcome, v: View): Arrival
    requires v.phase.Running?
  {
    Goes(step, At(Addrs(v.table) - {v.ripNow}), v.phase.clean)
  }

  /** `w` is `v` after running to the next stop: reported and remembered, or ended. */
  ghost predicate RanToNextStop(step: Cpu -> Outcome, v: View, w: View)
    requires v.phase.Running?
  {
    match NextStop(step, v)
    case Exited(s) => w.phase == Loaded && w.out == v.out + [Terminated(s)] && w.table == v.table
    case Stopped(d) =>
      && w.phase == Running(d) && w.out == v.out + [Hit(d.rip)] && w.table == v.table
      && d.rip == w.ripNow == w.bpaddrNow
    case Pending(_) => false
  }

  /** The clean run comes back to the remembered breakpoint with nothing to disarm there. */
  ghost predicate RunsIntoForgotten(step: Cpu -> Outcome, v: View)
    requires v.phase.Running?
  {
    var first := Goes(step, At(Addrs(v.table)), v.phase.clean);
    first.Stopped? && first.cpu.rip == v.ripNow != v.bpaddrNow
  }

  /** `cont` refines "run the clean program to the next other breakpoint or to its end",
      exactly unless the run first comes back to a remembered breakpoint it has stepped off. */
  lemma ContExact(step: Cpu -> Outcome, v: View)
    requires v.phase.Running? && ContReturns(step, v)
    ensures RanToNextStop(step, v, ContView(step, v)) <==> !RunsIntoForgotten(step, v)
  {
    var stops, c := Addrs(v.table), v.phase.clean;
    GoesPast(step, stops, v.ripNow, c);
    GoesStops(step, At(stops), c);
    if RunsIntoForgotten(step, v) {
      assert ContView(step, v).out == v.out;
    }
  }

  /** From a reported breakpoint `cont` always does so, and the program leaves it by a step. */
  lemma ContFromHit(step: Cpu -> Outcome, v: View)
    requires v.phase.Running? && ContReturns(step, v)
    requires v.phase.clean.rip == v.ripNow == v.bpaddrNow && v.ripNow in Addrs(v.table)
    ensures RanToNextStop(step, v, ContView(step, v))
    ensures var stops := Addrs(v.table) - {v.ripNow};
      NextStop(step, v) == match step(v.phase.clean)
        case Exit(s) => Exited(s)
        case Next(d) => Goes(step, At(stops), d)
  {
    GoesUnfold(step, At(Addrs(v.table)), v.phase.clean);
    GoesUnfold(step, At(Addrs(v.table) - {v.ripNow}), v.phase.clean);
    ContExact(step, v);
  }

  /** The run's first stop at any live breakpoint, or its end, is what `w` reports. */
  ghost predicate ReportsFirst(step: Cpu -> Outcome, v: View, w: View)
    requires v.phase.Running?
  {
    match Goes(step, At(Addrs(v.table)), v.phase.clean)
    case Exited(s) => w.phase == Loaded && w.out == v.out + [Terminated(s)]
    case Stopped(d) => w.phase == Running(d) && w.out == v.out + [Hit(d.rip)]
    case Pending(_) => false
  }

  /** The first live breakpoint the program comes to is the remembered one. */
  ghost predicate MeetsRemembered(step: Cpu -> Outcome, v: View)
    requires v.phase.Running?
  {
    var first := Goes(step, At(Addrs(v.table)), v.phase.clean);
    first.Stopped? && first.cpu.rip == v.ripNow
  }

  /** `cont` reports the first live breakpoint the program comes to, or its end, exactly unless
      that breakpoint is the remembered one; then it passes it in silence or gets stuck there. */
  lemma ReportsFirstExact(step: Cpu -> Outcome, v: View)
    requires v.phase.Running? && ContReturns(step, v)
    ensures ReportsFirst(step, v, ContView(step, v)) <==> !MeetsRemembered(step, v)
  {
    var stops, c := Addrs(v.table), v.phase.clean;
    GoesStops(step, At(stops), c);
    if MeetsRemembered(step, v) {
      GoesStops(step, At(stops - {v.ripNow}), Goes(step, At(stops), c).cpu);
    }
  }

  /** In particular for the first `cont` of a process started anew, whatever breakpoints are set
      in it: the address remembered from the process before is the one that is not reported. */
  lemma RestartReportsExactly(step: Cpu -> Outcome, v: View, image: Cpu, edits: seq<Command>)
    requires !v.phase.NotLoaded? && OnlyEdits(edits)
    requires ContReturns(step, ScriptView(step, StartView(v, image), edits))
    ensures var w := ScriptView(step, StartView(v, image), edits);
      && w.phase == Running(image)
      && (ReportsFirst(step, w, ContView(step, w)) <==>
            var first := Goes(step, At(Addrs(w.table)), image);
            !(first.Stopped? && first.cpu.rip == v.ripNow))
      && (Remembers(v) ==> v.ripNow == LastHit(v.out) == LastHit(w.out))
  {
    EditsKeepProcess(step, StartView(v, image), edits);
    ReportsFirstExact(step, ScriptView(step, StartView(v, image), edits));
  }

  /** From a hit, the program's next visit to any live breakpoint, or its end. */
  ghost function NextVisit(step: Cpu -> Outcome, v: View): Arrival
    requires v.phase.Running?
  {
    match step(v.phase.clean)
    case Exit(s) => Exited(s)
    case Next(d) => Goes(step, At(Addrs(v.table)), d)
  }

  ghost predicate ReportsVisit(step: Cpu -> Outcome, v: View, w: View)
    requires v.phase.Running?
  {
    match NextVisit(step, v)
    case Exited(s) => w.phase == Loaded && w.out == v.out + [Terminated(s)]
    case Stopped(d) => w.phase == Running(d) && w.out == v.out + [Hit(d.rip)]
    case Pending(_) => false
  }

  /** After a hit, `cont` reports the next visit to a live breakpoint exactly unless it is to the
      same one: a lone breakpoint in a loop is reported once. */
  lemma ReportsVisitExact(step: Cpu -> Outcome, v: View)
    requires v.phase.Running? && ContReturns(step, v)
    requires v.phase.clean.rip == v.ripNow == v.bpaddrNow && v.ripNow in Addrs(v.table)
    ensures var next := NextVisit(step, v);
      ReportsVisit(step, v, ContView(step, v)) <==> !(next.Stopped? && next.cpu.rip == v.ripNow)
  {
    var c, stops := v.phase.clean, Addrs(v.table);
    ContFromHit(step, v);
    GoesUnfold(step, At(stops), c);
    if step(c).Next? {
      var d := step(c).cpu;
      GoesSooner(step, stops, v.ripNow, d);
      GoesPast(step, stops, v.ripNow, d);
      GoesStops(step, At(stops), d);
      GoesStops(step, At(stops - {v.ripNow}), d);
    }
  }

  // ---------- si ----------

  predicate Stepped(o: Outcome, v: View, w: View) {
    match o
    case Next(d) => w.phase == Running(d) && w.out == v.out
    case Exit(s) => w.phase == Loaded && w.out == v.out + [Terminated(s)]
  }

  /** `si` makes no clean step or exactly one; the latter fails exactly when the step lands just
      past an armed address, which is then taken for a hit and the process is rewound. */
  lemma SiExact(p: Program, v: View)
    requires Debuggable(p) && Sound(p, v) && Guard(v) && v.phase.Running?
    ensures HoldsStill(v) ==>
      && SiView(p.step, v).phase == v.phase
      && SiView(p.step, v).out == v.out + if v.phase.clean.rip == v.ripNow then [] else [Hit(v.phase.clean.rip)]
    ensures !HoldsStill(v) ==>
      (Stepped(p.step(v.phase.clean), v, SiView(p.step, v)) <==> StepsClear(p.step, v))
  {
  }

  /** A breakpoint reached by stepping is reported by the next `si`, which leaves the process
      where it is, and executed by the one after. */
  lemma SiReportsThenExecutes(p: Program, v: View)
    requires Debuggable(p) && Sound(p, v) && Guard(v) && v.phase.Running?
    requires v.phase.clean.rip in Addrs(v.table) && v.phase.clean.rip != v.ripNow && StepsClear(p.step, v)
    ensures var w := SiView(p.step, v); var x := SiView(p.step, w);
      && w.phase == v.phase && w.out == v.out + [Hit(v.phase.clean.rip)]
      && Stepped(p.step(v.phase.clean), w, x)
  {
  }

  /** A step taken for a hit: `rip` is one back, and the hit is announced if it is not the
      remembered one.  The first is a step off a reported breakpoint, the second any other. */
  lemma OverrunRewinds(step: Cpu -> Outcome, v: View)
    requires v.phase.Running? && !HoldsStill(v) && !StepsClear(step, v)
    ensures var c, d := v.phase.clean, step(v.phase.clean).cpu;
      var back, w := d.(rip := Before(d.rip)), SiView(step, v);
      && (c.rip in Addrs(v.table) || back.rip != v.ripNow ==>
            && w.phase == Running(back)
            && w.out == v.out + (if back.rip == v.ripNow then [] else [Hit(back.rip)]))
      && (c.rip !in Addrs(v.table) && back.rip == v.ripNow == v.bpaddrNow ==>
            w == SiView(step, v.(phase := Running(back))))
  {
  }

  // ---------- The two remembered addresses ----------

  /** The address of the last hit printed; zero, as the debugger starts, if there is none. */
  function LastHit(out: seq<Report>): Word {
    if out == [] then 0
    else match out[|out| - 1]
      case Hit(a) => a
      case Terminated(_) => LastHit(out[..|out| - 1])
  }

  lemma LastHitAppend(out: seq<Report>, r: Report)
    ensures LastHit(out + [r]) == match r case Hit(a) => a case Terminated(_) => LastHit(out)
  {
    assert (out + [r])[..|out|] == out;
  }

  /** `ripNow` is the address of the last hit, `bpaddrNow` that address or zero. */
  predicate Remembers(v: View) {
    v.ripNow == LastHit(v.out) && (v.bpaddrNow == 0 || v.bpaddrNow == v.ripNow)
  }

  /** What `cont` remembers: a hit it prints; otherwise `ripNow` as it was, also when the process
      ends, and `bpaddrNow` as it was unless the remembered breakpoint was met. */
  lemma ContRemembers(step: Cpu -> Outcome, v: View)
    requires v.phase.Running? && ContReturns(step, v)
    ensures var w := ContView(step, v);
      && w.table == v.table && w.nextId == v.nextId
      && (|| (w.ripNow == w.bpaddrNow && w.out == v.out + [Hit(w.ripNow)])
          || (&& w.ripNow == v.ripNow && w.bpaddrNow == (if MeetsRemembered(step, v) then 0 else v.bpaddrNow)
              && (w.phase.Running? <==> w.out == v.out)
              && (w.phase == Loaded <==> exists s :: w.out == v.out + [Terminated(s)])))
  {
    var w := ContView(step, v);
    if w.out != v.out { assert w.out[|v.out|] == w.out[|w.out| - 1]; }
  }

  /** From a hit, a `cont` in which the process ends forgets the hit's re-arming only. */
  lemma EndFromHit(step: Cpu -> Outcome, v: View)
    requires v.phase.Running? && ContReturns(step, v) && !ContView(step, v).phase.Running?
    requires v.phase.clean.rip == v.ripNow == v.bpaddrNow && v.ripNow in Addrs(v.table)
    ensures var w := ContView(step, v);
      w.ripNow == v.ripNow && w.bpaddrNow == 0 && w.table == v.table && w.nextId == v.nextId
  {
    GoesUnfold(step, At(Addrs(v.table)), v.phase.clean);
  }

  /** What `si` remembers: a hit it prints; otherwise `ripNow` as it was, also when the process
      ends, and `bpaddrNow` as it was unless it stood, or was taken to stand, at the remembered
      breakpoint. */
  lemma SiRemembers(step: Cpu -> Outcome, v: View)
    requires v.phase.Running?
    ensures var w, d := SiView(step, v), FirstLook(step, v);
      && w.table == v.table && w.nextId == v.nextId
      && (|| (w.ripNow == w.bpaddrNow && w.out == v.out + [Hit(w.ripNow)])
          || (&& w.ripNow == v.ripNow
              && w.bpaddrNow == (if d.rip in Addrs(v.table) && d.rip == v.ripNow then 0 else v.bpaddrNow)
              && (w.phase.Running? <==> w.out == v.out)
              && (w.phase == Loaded <==> exists s :: w.out == v.out + [Terminated(s)])))
  {
    var w := SiView(step, v);
    if w.out != v.out { assert w.out[|v.out|] == w.out[|w.out| - 1]; }
  }

  lemma ReportsRemember(v: View, w: View)
    requires Remembers(v) && (w.bpaddrNow == 0 || w.bpaddrNow == v.bpaddrNow || w.bpaddrNow == w.ripNow)
    requires (w.ripNow == v.ripNow && (w.out == v.out || exists s :: w.out == v.out + [Terminated(s)]))
          || (w.ripNow == w.bpaddrNow && w.out == v.out + [Hit(w.ripNow)])
    ensures Remembers(w)
  {
    if w.out != v.out { LastHitAppend(v.out, w.out[|v.out|]); }
  }

  lemma RunRemembers(step: Cpu -> Outcome, v: View, cmd: Command)
    requires Remembers(v) && (cmd.Cont? || cmd.Si?)
    ensures Remembers(CommandView(step, v, cmd))
  {
    if v.phase.Running? && cmd.Si? {
      SiRemembers(step, v);
      hide SiView;
      ReportsRemember(v, SiView(step, v));
    } else if v.phase.Running? && ContReturns(step, v) {
      ContRemembers(step, v);
      hide ContView;
      ReportsRemember(v, ContView(step, v));
    }
  }

  lemma RemembersKept(step: Cpu -> Outcome, v: View, cmd: Command)
    requires Remembers(v) && !SetsRip(cmd)
    ensures Remembers(CommandView(step, v, cmd))
  {
    match cmd
    case Cont => RunRemembers(step, v, Cont);
    case Si => RunRemembers(step, v, Si);
    case Run(image) =>
      if v.phase.Loaded? { RunRemembers(step, StartView(v, image), Cont); } else { RunRemembers(step, v, Cont); }
    case _ =>
  }

  /** Over every session without `set rip`, across ends and starts of processes, the debugger
      remembers the last hit it printed, and would re-arm that or nothing. */
  lemma {:induction false} RemembersAlways(step: Cpu -> Outcome, v: View, cmds: seq<Command>)
    requires Remembers(v) && forall cmd | cmd in cmds :: !SetsRip(cmd)
    ensures Remembers(ScriptView(step, v, cmds))
    decreases |cmds|
  {
    if cmds != [] {
      assert cmds[0] in cmds;
      RemembersKept(step, v, cmds[0]);
      RemembersAlways(step, CommandView(step, v, cmds[0]), cmds[1..]);
    }
  }

  /** Nothing is remembered as hit, or what is remembered is where the last stop was. */
  predicate InStep(v: View) {
    v.bpaddrNow == 0 || v.bpaddrNow == v.ripNow
  }

  predicate SetsRip(cmd: Command) {
    cmd.Set? && cmd.reg == Rip
  }

  lemma InStepKept(step: Cpu -> Outcome, v: View, cmd: Command)
    requires InStep(v) && !SetsRip(cmd)
    ensures InStep(CommandView(step, v, cmd)) && Guard(CommandView(step, v, cmd))
  {
  }

  /** Without `set rip`, the guard holds at every command of every session. */
  lemma {:induction false} GuardAlways(step: Cpu -> Outcome, v: View, cmds: seq<Command>)
    requires InStep(v) && forall cmd | cmd in cmds :: !SetsRip(cmd)
    ensures InStep(ScriptView(step, v, cmds)) && Guard(ScriptView(step, v, cmds))
    decreases |cmds|
  {
    if cmds != [] {
      InStepKept(step, v, cmds[0]);
      GuardAlways(step, CommandView(step, v, cmds[0]), cmds[1..]);
    }
  }

  /** So a session without `set rip` need not ask for the guard: if its commands can be issued,
      they are allowed. */
  lemma {:induction false} IssuableAllowed(p: Program, v: View, cmds: seq<Command>)
    requires InStep(v) && (forall cmd | cmd in cmds :: !SetsRip(cmd)) && ScriptIssuable(p, v, cmds)
    ensures ScriptAllowed(p, v, cmds)
    decreases |cmds|
  {
    if cmds != [] {
      assert cmds[0] in cmds;
      InStepKept(p.step, v, cmds[0]);
      IssuableAllowed(p, CommandView(p.step, v, cmds[0]), cmds[1..]);
    }
  }

  /** With `set rip`, the commands that run the process keep the guard, whatever they find. */
  lemma GuardKeptByRunning(step: Cpu -> Outcome, v: View)
    requires Guard(v)
    ensures Guard(ContView(step, v)) && Guard(SiView(step, v))
  {
  }

  /** Outside the guard a stuck command damages the process: it plants `int3` at the remembered
      address, which no live breakpoint will ever remove. */
  lemma StuckKeepsProcess(v: View, d: Cpu)
    ensures var x := v.bpaddrNow;
      && (Stuck(v, d).phase == Running(d) <==>
            (x in Addrs(v.table) || !WordMapped(d.mem, x) || d.mem[x] == INT3))
      && (Stuck(v, d).phase == Running(d) ||
            (x in d.mem && Stuck(v, d).phase == Running(d.(mem := d.mem[x := 0xcc]))))
  {
  }

  /** So a `cont` that runs into a forgotten breakpoint leaves the program's own state exactly if
      the other remembered address is live, not patchable, or `int3` in the program itself. */
  lemma ForgottenContKeepsProcess(step: Cpu -> Outcome, v: View)
    requires v.phase.Running? && RunsIntoForgotten(step, v)
    ensures var d := Goes(step, At(Addrs(v.table)), v.phase.clean).cpu; var x := v.bpaddrNow;
      && (ContView(step, v).phase == Running(d) <==>
            (x in Addrs(v.table) || !WordMapped(d.mem, x) || d.mem[x] == INT3))
      && (ContView(step, v).phase == Running(d) ||
            (x in d.mem && ContView(step, v).phase == Running(d.(mem := d.mem[x := 0xcc]))))
  {
  }

  /** Where `si` finds the process, or takes it to be, before it may step over a breakpoint. */
  function FirstLook(step: Cpu -> Outcome, v: View): Cpu
    requires v.phase.Running?
  {
    var c := v.phase.clean;
    if c.rip !in Addrs(v.table) && Overruns(step(c), Addrs(v.table)) then Rewound(step(c).cpu) else c
  }

  /** `si` comes to a remembered breakpoint with nothing, or the wrong address, to disarm. */
  predicate SiForgotten(step: Cpu -> Outcome, v: View)
    requires v.phase.Running?
  {
    var d := FirstLook(step, v);
    d.rip in Addrs(v.table) && d.rip == v.ripNow != v.bpaddrNow
  }

  /** The same for a whole `si`. */
  lemma ForgottenSiKeepsProcess(step: Cpu -> Outcome, v: View)
    requires v.phase.Running? && SiForgotten(step, v)
    ensures var d := FirstLook(step, v); var x := v.bpaddrNow;
      && (SiView(step, v).phase == Running(d) <==>
            (x in Addrs(v.table) || !WordMapped(d.mem, x) || d.mem[x] == INT3))
      && (SiView(step, v).phase == Running(d) ||
            (x in d.mem && SiView(step, v).phase == Running(d.(mem := d.mem[x := 0xcc]))))
  {
    StuckKeepsProcess(v, FirstLook(step, v));
  }

  /** And no other `si` touches memory but by the program's own instructions. */
  lemma OtherSiOnlySteps(step: Cpu -> Outcome, v: View)
    requires v.phase.Running? && !SiForgotten(step, v) && SiView(step, v).phase.Running?
    ensures var c, d, w := v.phase.clean, FirstLook(step, v), SiView(step, v).phase.clean;
      || w.mem == c.mem
      || (step(c).Next? && w.mem == step(c).cpu.mem)
      || (step(d).Next? && w.mem == step(d).cpu.mem)
  {
  }

  // ---------- Livelock ----------

  /** Standing on the remembered breakpoint after having stepped off it. */
  predicate Forgotten(v: View) {
    v.phase.Running? && v.phase.clean.rip == v.ripNow != v.bpaddrNow && v.ripNow in Addrs(v.table)
  }

  predicate OnlyRuns(cmds: seq<Command>) {
    forall cmd | cmd in cmds :: cmd.Cont? || cmd.Si?
  }

  lemma ForgottenOnce(p: Program, v: View, cmd: Command)
    requires Debuggable(p) && Sound(p, v) && Guard(v) && Forgotten(v) && (cmd.Cont? || cmd.Si?)
    ensures CommandView(p.step, v, cmd) == v.(bpaddrNow := 0)
  {
    GuardedStuck(p, v, v.phase.clean);
    GoesUnfold(p.step, At(Addrs(v.table)), v.phase.clean);
  }

  /** Once there, no sequence of `cont` and `si` ever moves the process or prints anything. */
  lemma {:induction false} ForgottenForever(p: Program, v: View, cmds: seq<Command>)
    requires Debuggable(p) && Sound(p, v) && Guard(v) && Forgotten(v) && OnlyRuns(cmds)
    ensures var w := ScriptView(p.step, v, cmds); w.phase == v.phase && w.out == v.out && Forgotten(w)
    decreases |cmds|
  {
    if cmds != [] {
      assert cmds[0] in cmds;
      ForgottenOnce(p, v, cmds[0]);
      ForgottenForever(p, v.(bpaddrNow := 0), cmds[1..]);
    }
  }

  // ---------- The breakpoint table ----------

  /** Ids increase along the table and addresses are pairwise distinct. */
  predicate Rows(table: seq<Entry>) {
    forall i, j | 0 <= i < j < |table| :: table[i].id < table[j].id && table[i].addr != table[j].addr
  }

  predicate Ordered(v: View) {
    Rows(v.table) && forall e | e in v.table :: e.id < v.nextId
  }

  lemma {:induction false} WithoutShape(table: seq<Entry>, id: int) returns (k: nat)
    ensures k <= |table|
    ensures k < |table| ==> Without(table, id) == table[..k] + table[k + 1..]
    ensures k == |table| ==> Without(table, id) == table
  {
    if table == [] || table[0].id == id {
      k := 0;
    } else {
      k := WithoutShape(table[1..], id);
      k := k + 1;
      assert table == [table[0]] + table[1..];
      assert k < |table| ==> table[..k] + table[k + 1..] == [table[0]] + (table[1..][..k - 1] + table[1..][k..]);
    }
  }

  lemma WithoutOrdered(table: seq<Entry>, id: int)
    requires Rows(table)
    ensures Rows(Without(table, id)) && forall e | e in Without(table, id) :: e in table
  {
    var k := WithoutShape(table, id);
    WithoutMember(table, id);
    if k < |table| {
      var rest := Without(table, id);
      forall i, j | 0 <= i < j < |rest| ensures rest[i].id < rest[j].id && rest[i].addr != rest[j].addr {
        assert rest[i] == table[if i < k then i else i + 1] && rest[j] == table[if j < k then j else j + 1];
      }
    }
  }

  lemma BreakOrdered(v: View, addr: Word)
    requires Ordered(v)
    ensures Ordered(BreakView(v, addr))
  {
  }

  lemma TableKept(step: Cpu -> Outcome, v: View, cmd: Command)
    requires Ordered(v)
    ensures var w := CommandView(step, v, cmd);
      && Ordered(w) && w.nextId >= v.nextId
      && forall e | e in w.table && e.id < v.nextId :: e in v.table
  {
    match cmd
    case Delete(id) => WithoutOrdered(v.table, id);
    case Break(a) => BreakOrdered(v, a);
    case _ =>
  }

  /** Over every session rows stay ordered by id with distinct addresses, and an id once issued
      never names a row again after the row is gone, not even across `start`. */
  lemma {:induction false} IdsNeverReused(step: Cpu -> Outcome, v: View, cmds: seq<Command>)
    requires Ordered(v)
    ensures var w := ScriptView(step, v, cmds);
      && Ordered(w) && w.nextId >= v.nextId
      && forall e | e in w.table && e.id < v.nextId :: e in v.table
    decreases |cmds|
  {
    if cmds != [] {
      TableKept(step, v, cmds[0]);
      IdsNeverReused(step, CommandView(step, v, cmds[0]), cmds[1..]);
    }
  }

  // ---------- Editing breakpoints ----------

  /** `break` makes its address live and nothing else; `delete` removes the row with its id and
      no other. */
  lemma EditEffect(v: View, addr: Word, id: int)
    requires v.phase.Running? && Ordered(v)
    ensures Addrs(BreakView(v, addr).table) == Addrs(v.table) + {addr}
    ensures addr in Addrs(v.table) ==> BreakView(v, addr) == v
    ensures addr !in Addrs(v.table) ==>
      BreakView(v, addr) == v.(table := v.table + [Entry(v.nextId, addr)], nextId := v.nextId + 1)
    ensures DeleteView(v, id).(table := v.table) == v
    ensures forall e :: e in DeleteView(v, id).table <==> e in v.table && e.id != id
  {
    if addr !in Addrs(v.table) { AddrsAppend(v.table, Entry(v.nextId, addr)); }
    WithoutExact(v.table, id);
  }

  lemma AddrsAppend(table: seq<Entry>, e: Entry)
    ensures Addrs(table + [e]) == Addrs(table) + {e.addr}
  {
  }

  lemma {:induction false} WithoutExact(table: seq<Entry>, id: int)
    requires Rows(table)
    ensures forall e :: e in Without(table, id) <==> e in table && e.id != id
  {
    if table != [] {
      assert table == [table[0]] + table[1..];
      assert forall e | e in table[1..] :: table[0].id < e.id;
      WithoutExact(table[1..], id);
    }
  }

  predicate OnlyEdits(cmds: seq<Command>) {
    forall cmd | cmd in cmds :: cmd.Break? || cmd.Delete?
  }

  /** Breakpoint edits change the table only. */
  lemma {:induction false} EditsKeepProcess(step: Cpu -> Outcome, v: View, cmds: seq<Command>)
    requires OnlyEdits(cmds)
    ensures var w := ScriptView(step, v, cmds);
      w.phase == v.phase && w.ripNow == v.ripNow && w.bpaddrNow == v.bpaddrNow && w.out == v.out
    decreases |cmds|
  {
    if cmds != [] {
      assert cmds[0] in cmds;
      EditsKeepProcess(step, CommandView(step, v, cmds[0]), cmds[1..]);
    }
  }

  // ---------- Every command, and scripts of them ----------

  /** What each command does to what the user sees and the debugger remembers, field by field;
      `cont` and `si` are described above. */
  lemma CommandEffect(step: Cpu -> Outcome, v: View, cmd: Command)
    requires Ordered(v)
    ensures var w := CommandView(step, v, cmd);
      match cmd
      case Load => w == v.(phase := Loaded)
      case Start(image) =>
        if v.phase.NotLoaded? then w == v else w == v.(phase := Running(image), table := [])
      case Run(image) =>
        && (v.phase.NotLoaded? ==> w == v)
        && (v.phase.Loaded? ==> w == ContView(step, v.(phase := Running(image), table := [])))
        && (v.phase.Running? ==> w == ContView(step, v))
      case Break(a) =>
        && (!v.phase.Running? || a in Addrs(v.table) ==> w == v)
        && (v.phase.Running? && a !in Addrs(v.table) ==>
              w == v.(table := v.table + [Entry(v.nextId, a)], nextId := v.nextId + 1))
      case Delete(id) =>
        && (!v.phase.Running? ==> w == v)
        && (v.phase.Running? ==>
              w.(table := v.table) == v && forall e :: e in w.table <==> e in v.table && e.id != id)
      case Set(reg, val) =>
        && (!v.phase.Running? ==> w == v)
        && (v.phase.Running? && reg == Rip ==>
              w == v.(phase := Running(v.phase.clean.(rip := val)), ripNow := val))
        && (v.phase.Running? && reg != Rip ==>
              w == v.(phase := Running(v.phase.clean.(regs := v.phase.clean.regs[reg := val]))))
      case Cont => w == ContView(step, v)
      case Si => w == SiView(step, v)
  {
    if v.phase.Running? && cmd.Delete? { EditEffect(v, 0, cmd.id); }
  }

  /** A script is its commands one after the other. */
  lemma {:induction false} ScriptAppend(step: Cpu -> Outcome, v: View, cmds: seq<Command>, cmd: Command)
    ensures ScriptView(step, v, []) == v
    ensures ScriptView(step, v, cmds + [cmd]) == CommandView(step, ScriptView(step, v, cmds), cmd)
    decreases |cmds|
  {
    if cmds == [] {
      assert [cmd][1..] == [];
      assert cmds + [cmd] == [cmd];
      assert ScriptView(step, CommandView(step, v, cmd), []) == CommandView(step, v, cmd);
    } else {
      assert (cmds + [cmd])[1..] == cmds[1..] + [cmd];
      ScriptAppend(step, CommandView(step, v, cmds[0]), cmds[1..], cmd);
    }
  }
}
