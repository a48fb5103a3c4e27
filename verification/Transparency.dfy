/**
 Session transparency: what the debugged program does under any script of commands is what the
 program does undebugged, with the same register writes interleaved.
 */
module Transparency {
  import opened MachineWords
  import opened Processor
  import opened Runs
  import opened SessionSpec

  /** The undebugged world: instructions, and writes to registers between them. */
  datatype Event = Step | Write(reg: Register, val: Word)

  function Replay(step: Cpu -> Outcome, c: Cpu, events: seq<Event>): Outcome
    decreases |events|
  {
    if events == [] then Next(c)
    else match events[0]
      case Step =>
        if step(c).Exit? then step(c) else Replay(step, step(c).cpu, events[1..])
      case Write(reg, val) => Replay(step, c.Write(reg, val), events[1..])
  }

  function Writes(events: seq<Event>): seq<Event> {
    if events == [] then []
    else (if events[0].Write? then [events[0]] else []) + Writes(events[1..])
  }

  function Steps(n: nat): seq<Event> {
    seq(n, _ => Step)
  }

  lemma {:induction false} ReplayAppend(step: Cpu -> Outcome, c: Cpu, some: seq<Event>, more: seq<Event>)
    ensures Replay(step, c, some + more) ==
      match Replay(step, c, some)
      case Next(d) => Replay(step, d, more)
      case Exit(s) => Exit(s)
    decreases |some|
  {
    if some == [] {
      assert some + more == more;
    } else {
      assert (some + more)[1..] == some[1..] + more;
      match some[0]
      case Step => if step(c).Next? { ReplayAppend(step, step(c).cpu, some[1..], more); }
      case Write(reg, val) => ReplayAppend(step, c.Write(reg, val), some[1..], more);
    }
  }

  lemma {:induction false} WritesAppend(some: seq<Event>, more: seq<Event>)
    ensures Writes(some + more) == Writes(some) + Writes(more)
  {
    if some == [] {
      assert some + more == more;
    } else {
      var first := if some[0].Write? then [some[0]] else [];
      assert (some + more)[1..] == some[1..] + more;
      WritesAppend(some[1..], more);
      assert first + (Writes(some[1..]) + Writes(more)) == (first + Writes(some[1..])) + Writes(more);
    }
  }

  lemma {:induction false} StepsWriteNothing(n: nat)
    ensures Writes(Steps(n)) == []
  {
    if n > 0 {
      assert Steps(n)[1..] == Steps(n - 1);
      StepsWriteNothing(n - 1);
    }
  }

  /** A run is a number of undebugged instructions. */
  lemma {:induction false} TravelReplays(step: Cpu -> Outcome, halt: Cpu -> bool, c: Cpu, n: nat) returns (k: nat)
    ensures match Travel(step, halt, c, n)
      case Exited(s) => Replay(step, c, Steps(k)) == Exit(s)
      case Stopped(d) => Replay(step, c, Steps(k)) == Next(d)
      case Pending(d) => Replay(step, c, Steps(k)) == Next(d)
    decreases n
  {
    if halt(c) || n == 0 {
      k := 0;
    } else if step(c).Exit? {
      k := 1;
    } else {
      k := TravelReplays(step, halt, step(c).cpu, n - 1);
      k := k + 1;
      assert Steps(k)[1..] == Steps(k - 1);
    }
  }

  lemma GoesReplays(step: Cpu -> Outcome, halt: Cpu -> bool, c: Cpu) returns (k: nat)
    requires !Goes(step, halt, c).Pending?
    ensures Replay(step, c, Steps(k)) ==
      match Goes(step, halt, c) case Exited(s) => Exit(s) case Stopped(d) => Next(d)
  {
    var n: nat :| !Travel(step, halt, c, n).Pending?;
    GoesWithin(step, halt, c, n);
    k := TravelReplays(step, halt, c, n);
  }

  lemma ReplayTwice(step: Cpu -> Outcome, c: Cpu, j: nat, k: nat)
    requires Replay(step, c, Steps(j)).Next?
    ensures Replay(step, c, Steps(j + k)) == Replay(step, Replay(step, c, Steps(j)).cpu, Steps(k))
  {
    assert Steps(j + k) == Steps(j) + Steps(k);
    ReplayAppend(step, c, Steps(j), Steps(k));
  }

  /** `w` is where the program at `c` is after `k` instructions, and the report is true of it. */
  ghost predicate RanFrom(step: Cpu -> Outcome, c: Cpu, k: nat, v: View, w: View) {
    match w.phase
    case Running(d) =>
      && Replay(step, c, Steps(k)) == Next(d)
      && (w.out == v.out || (d.rip in Addrs(v.table) && w.out == v.out + [Hit(d.rip)]))
    case Loaded => exists s :: Replay(step, c, Steps(k)) == Exit(s) && w.out == v.out + [Terminated(s)]
    case NotLoaded => false
  }

  lemma ContRan(p: Program, v: View) returns (k: nat)
    requires Debuggable(p) && Sound(p, v) && Guard(v) && ContReturns(p.step, v) && v.phase.Running?
    ensures RanFrom(p.step, v.phase.clean, k, v, ContView(p.step, v))
  {
    var stops, c := Addrs(v.table), v.phase.clean;
    var first := Goes(p.step, At(stops), c);
    GoesStops(p.step, At(stops), c);
    GoesStaysGood(p, At(stops), c);
    k := GoesReplays(p.step, At(stops), c);
    if first.Stopped? && first.cpu.rip == v.ripNow {
      var d := first.cpu;
      if v.bpaddrNow != d.rip {
        GuardedStuck(p, v, d);
      } else {
        GoesStops(p.step, At(stops - {d.rip}), d);
        var j := GoesReplays(p.step, At(stops - {d.rip}), d);
        ReplayTwice(p.step, c, k, j);
        k := k + j;
      }
    }
  }

  lemma SiRan(p: Program, v: View) returns (k: nat)
    requires Debuggable(p) && Sound(p, v) && Allowed(p, v, Si) && v.phase.Running?
    ensures RanFrom(p.step, v.phase.clean, k, v, SiView(p.step, v)) && k <= 1
  {
    var c := v.phase.clean;
    assert Steps(1)[1..] == Steps(0);
    if c.rip in Addrs(v.table) && !(c.rip == v.ripNow == v.bpaddrNow) {
      k := 0;
      if c.rip == v.ripNow { GuardedStuck(p, v, c); }
    } else {
      k := 1;
    }
  }

  // ---------- Whole sessions ----------

  /** The process a session is debugging: its first state, and the writes made to it since. */
  datatype Origin = Origin(image: Cpu, writes: seq<Event>)

  function Track(o: Origin, v: View, cmd: Command): Origin {
    match cmd
    case Start(image) => if v.phase.NotLoaded? then o else Origin(image, [])
    case Run(image) => if v.phase.Loaded? then Origin(image, []) else o
    case Set(reg, val) => if v.phase.Running? then o.(writes := o.writes + [Write(reg, val)]) else o
    case _ => o
  }

  ghost function TrackAll(step: Cpu -> Outcome, o: Origin, v: View, cmds: seq<Command>): Origin
    decreases |cmds|
  {
    if cmds == [] then o
    else TrackAll(step, Track(o, v, cmds[0]), CommandView(step, v, cmds[0]), cmds[1..])
  }

  /** `events` is an undebugged run, with the writes of `o`, to where the process is now. */
  ghost predicate ExplainedBy(step: Cpu -> Outcome, o: Origin, v: View, events: seq<Event>) {
    v.phase.Running? ==> Writes(events) == o.writes && Replay(step, o.image, events) == Next(v.phase.clean)
  }

  /** While running, the clean process is one the undebugged program reaches from its image. */
  ghost predicate Explained(step: Cpu -> Outcome, o: Origin, v: View) {
    exists events :: ExplainedBy(step, o, v, events)
  }

  /** The report of a command, if any, is true of the undebugged run `events`: it stands at the
      live breakpoint named, or has ended with the status named. */
  ghost predicate ReportTrue(step: Cpu -> Outcome, o: Origin, v: View, w: View, events: seq<Event>) {
    || w.out == v.out
    || (&& w.phase.Running? && Replay(step, o.image, events) == Next(w.phase.clean)
        && w.phase.clean.rip in Addrs(w.table) && w.out == v.out + [Hit(w.phase.clean.rip)])
    || (&& w.phase.Loaded? && Writes(events) == o.writes
        && exists s :: Replay(step, o.image, events) == Exit(s) && w.out == v.out + [Terminated(s)])
  }

  /** The command makes a new process. */
  predicate StartsProcess(v: View, cmd: Command) {
    (cmd.Start? && !v.phase.NotLoaded?) || (cmd.Run? && v.phase.Loaded?)
  }

  lemma Extend(step: Cpu -> Outcome, o: Origin, v: View, events: seq<Event>, k: nat, w: View) returns (all: seq<Event>)
    requires v.phase.Running? && ExplainedBy(step, o, v, events)
    requires RanFrom(step, v.phase.clean, k, v, w) && w.table == v.table
    ensures events <= all && ExplainedBy(step, o, w, all) && ReportTrue(step, o, v, w, all)
  {
    all := events + Steps(k);
    ReplayAppend(step, o.image, events, Steps(k));
    WritesAppend(events, Steps(k));
    StepsWriteNothing(k);
    assert Writes(all) == o.writes;
  }

  lemma RunExtends(p: Program, o: Origin, v: View, cmd: Command, events: seq<Event>) returns (all: seq<Event>)
    requires Debuggable(p) && Sound(p, v) && Allowed(p, v, cmd) && v.phase.Running?
    requires (cmd.Cont? || cmd.Run? || cmd.Si?) && ExplainedBy(p.step, o, v, events)
    ensures var w := CommandView(p.step, v, cmd);
      events <= all && ExplainedBy(p.step, o, w, all) && ReportTrue(p.step, o, v, w, all)
  {
    var k := 0;
    if cmd.Si? { k := SiRan(p, v); } else { k := ContRan(p, v); }
    all := Extend(p.step, o, v, events, k, CommandView(p.step, v, cmd));
  }

  lemma NewProcessExplained(p: Program, v: View, cmd: Command) returns (all: seq<Event>)
    requires Debuggable(p) && Sound(p, v) && Allowed(p, v, cmd) && StartsProcess(v, cmd)
    ensures var w, o := CommandView(p.step, v, cmd), Origin(cmd.image, []);
      ExplainedBy(p.step, o, w, all) && ReportTrue(p.step, o, v, w, all)
  {
    var u := StartView(v, cmd.image);
    all := [];
    assert ExplainedBy(p.step, Origin(cmd.image, []), u, []);
    if cmd.Run? { all := RunExtends(p, Origin(cmd.image, []), u, Cont, []); }
  }

  /** Each command takes the undebugged run on, or starts a new one, and its report is true. */
  lemma CommandExplained(p: Program, o: Origin, v: View, cmd: Command, events: seq<Event>) returns (all: seq<Event>)
    requires Debuggable(p) && Sound(p, v) && Allowed(p, v, cmd) && ExplainedBy(p.step, o, v, events)
    ensures var w, q := CommandView(p.step, v, cmd), Track(o, v, cmd);
      && (!StartsProcess(v, cmd) ==> events <= all)
      && ExplainedBy(p.step, q, w, all) && ReportTrue(p.step, q, v, w, all)
  {
    all := events;
    if StartsProcess(v, cmd) {
      all := NewProcessExplained(p, v, cmd);
    } else if v.phase.Running? {
      match cmd
      case Set(reg, val) =>
        all := events + [Write(reg, val)];
        ReplayAppend(p.step, o.image, events, [Write(reg, val)]);
        WritesAppend(events, [Write(reg, val)]);
        assert Writes([Write(reg, val)]) == [Write(reg, val)];
      case Cont => all := RunExtends(p, o, v, cmd, events);
      case Run(_) => all := RunExtends(p, o, v, cmd, events);
      case Si => all := RunExtends(p, o, v, cmd, events);
      case _ =>
    }
  }

  /** One undebugged run per command boundary of a session: each continues the one before unless
      the command makes a new process, explains the process, and bears out the report. */
  ghost predicate Chronicle(step: Cpu -> Outcome, o: Origin, v: View, cmds: seq<Command>, runs: seq<seq<Event>>)
    decreases |cmds|
  {
    && |runs| == |cmds| + 1 && ExplainedBy(step, o, v, runs[0])
    && (cmds != [] ==>
          var w, q := CommandView(step, v, cmds[0]), Track(o, v, cmds[0]);
          && (!StartsProcess(v, cmds[0]) ==> runs[0] <= runs[1])
          && ReportTrue(step, q, v, w, runs[1])
          && Chronicle(step, q, w, cmds[1..], runs[1..]))
  }

  /** For every allowed script, the whole sequence of reports is true of undebugged runs: every
      breakpoint hit names, in order, a later state of the same run standing at a breakpoint
      live at that time, and every end is the run's own. */
  lemma {:induction false} SessionChronicle(p: Program, o: Origin, v: View, cmds: seq<Command>, events: seq<Event>)
    returns (runs: seq<seq<Event>>)
    requires Debuggable(p) && Sound(p, v) && ScriptAllowed(p, v, cmds) && ExplainedBy(p.step, o, v, events)
    ensures Chronicle(p.step, o, v, cmds, runs) && runs[0] == events
    ensures ExplainedBy(p.step, TrackAll(p.step, o, v, cmds), ScriptView(p.step, v, cmds), runs[|cmds|])
    decreases |cmds|
  {
    if cmds == [] {
      runs := [events];
    } else {
      var w, q := CommandView(p.step, v, cmds[0]), Track(o, v, cmds[0]);
      var next := CommandExplained(p, o, v, cmds[0], events);
      CommandSound(p, v, cmds[0]);
      var rest := SessionChronicle(p, q, w, cmds[1..], next);
      runs := [events] + rest;
      assert runs[1..] == rest;
    }
  }

  /** For every allowed script: at every command boundary the process with its saved bytes put
      back is a state the undebugged program reaches from its image, with exactly the `set`
      commands issued since interleaved. */
  lemma SessionTransparent(p: Program, o: Origin, v: View, cmds: seq<Command>)
    requires Debuggable(p) && Sound(p, v) && ScriptAllowed(p, v, cmds) && Explained(p.step, o, v)
    ensures Explained(p.step, TrackAll(p.step, o, v, cmds), ScriptView(p.step, v, cmds))
  {
    var events :| ExplainedBy(p.step, o, v, events);
    var _ := SessionChronicle(p, o, v, cmds, events);
  }
}
