/**
 What a debugging session means, told without `0xcc`, saved bytes or rewinding: a clean process,
 a table of breakpoints, and the two addresses the debugger remembers between commands.
 */
module SessionSpec {
  import opened MachineWords
  import opened Processor
  import opened Runs

  datatype Entry = Entry(id: int, addr: Word)

  /** The lines the debugger prints about the process. */
  datatype Report = Hit(addr: Word) | Terminated(status: int)

  datatype Phase = NotLoaded | Loaded | Running(clean: Cpu)

  datatype View = View(phase: Phase, table: seq<Entry>, nextId: int, ripNow: Word, bpaddrNow: Word, out: seq<Report>)

  function Addrs(table: seq<Entry>): set<Word> {
    set e | e in table :: e.addr
  }

  /** A breakpoint at `c.rip` is announced. */
  function Announce(v: View, c: Cpu): View {
    v.(phase := Running(c), ripNow := c.rip, bpaddrNow := c.rip, out := v.out + [Hit(c.rip)])
  }

  function Finish(v: View, status: int): View {
    v.(phase := Loaded, out := v.out + [Terminated(status)])
  }

  /** The debugger re-arms `x` although no live breakpoint is there. */
  function Smudge(c: Cpu, x: Word, armed: set<Word>): Cpu {
    if x !in armed && WordMapped(c.mem, x) then c.(mem := c.mem[x := INT3]) else c
  }

  /** Stopped at the remembered breakpoint with nothing (or the wrong address) to disarm. */
  function Stuck(v: View, c: Cpu): View {
    v.(phase := Running(Smudge(c, v.bpaddrNow, Addrs(v.table))), bpaddrNow := 0)
  }

  /** `cont` runs into the armed address `c.rip`. */
  ghost function ContAtBreakpoint(step: Cpu -> Outcome, v: View, c: Cpu): View {
    if c.rip != v.ripNow then Announce(v, c)
    else if v.bpaddrNow != c.rip then Stuck(v, c)
    else match Goes(step, At(Addrs(v.table) - {c.rip}), c)
      case Exited(s) => Finish(v.(bpaddrNow := 0), s)
      case Stopped(d) => Announce(v, d)
      case Pending(_) => v
  }

  ghost function ContView(step: Cpu -> Outcome, v: View): View {
    if !v.phase.Running? then v
    else match Goes(step, At(Addrs(v.table)), v.phase.clean)
      case Exited(s) => Finish(v, s)
      case Stopped(d) => ContAtBreakpoint(step, v, d)
      case Pending(_) => v
  }

  /** The command comes back: every wait in it ends. */
  ghost predicate ContReturns(step: Cpu -> Outcome, v: View) {
    v.phase.Running? ==>
      var first := Goes(step, At(Addrs(v.table)), v.phase.clean);
      && !first.Pending?
      && (first.Stopped? && first.cpu.rip == v.ripNow == v.bpaddrNow ==>
            !Goes(step, At(Addrs(v.table) - {v.ripNow}), first.cpu).Pending?)
  }

  /** After one instruction, a `rip` just past an armed address is taken for a hit there. */
  predicate Overruns(o: Outcome, armed: set<Word>) {
    o.Next? && Before(o.cpu.rip) in armed
  }

  function Rewound(c: Cpu): Cpu {
    c.(rip := Before(c.rip))
  }

  /** `si` finds the process at (or taken to be at) the armed address `c.rip`. */
  function SiAtBreakpoint(step: Cpu -> Outcome, v: View, c: Cpu): View {
    if c.rip != v.ripNow then Announce(v, c)
    else if v.bpaddrNow != c.rip then Stuck(v, c)
    else
      var w := v.(bpaddrNow := 0);
      match step(c)
      case Exit(s) => Finish(w, s)
      case Next(d) =>
        if !Overruns(step(c), Addrs(v.table)) then w.(phase := Running(d))
        else if Before(d.rip) != v.ripNow then Announce(w, Rewound(d))
        else w.(phase := Running(Rewound(d)))
  }

  function SiView(step: Cpu -> Outcome, v: View): View {
    if !v.phase.Running? then v
    else
      var c := v.phase.clean;
      if c.rip in Addrs(v.table) then SiAtBreakpoint(step, v, c)
      else match step(c)
        case Exit(s) => Finish(v, s)
        case Next(d) =>
          if Overruns(step(c), Addrs(v.table)) then SiAtBreakpoint(step, v, Rewound(d))
          else v.(phase := Running(d))
  }

  /** Every state `si` executes an instruction from is a state of the program. */
  ghost predicate SiOnGoodStates(p: Program, v: View) {
    v.phase.Running? ==>
      var c := v.phase.clean;
      && c in p.good
      && (c.rip !in Addrs(v.table) && Overruns(p.step(c), Addrs(v.table)) ==>
            Before(p.step(c).cpu.rip) == v.ripNow == v.bpaddrNow ==> Rewound(p.step(c).cpu) in p.good)
  }

  function BreakView(v: View, addr: Word): View {
    if !v.phase.Running? || addr in Addrs(v.table) then v
    else v.(table := v.table + [Entry(v.nextId, addr)], nextId := v.nextId + 1)
  }

  function Without(table: seq<Entry>, id: int): seq<Entry> {
    if table == [] then []
    else if table[0].id == id then table[1..]
    else [table[0]] + Without(table[1..], id)
  }

  function DeleteView(v: View, id: int): View {
    if !v.phase.Running? then v else v.(table := Without(v.table, id))
  }

  function SetView(v: View, reg: Register, val: Word): View {
    if !v.phase.Running? then v
    else v.(phase := Running(v.phase.clean.Write(reg, val)), ripNow := if reg.Rip? then val else v.ripNow)
  }

  function LoadView(v: View): View {
    v.(phase := Loaded)
  }

  /** A new process: the table is emptied, everything else is remembered. */
  function StartView(v: View, image: Cpu): View {
    if v.phase.NotLoaded? then v else v.(phase := Running(image), table := [])
  }

  // ---------- Scripts of commands ----------

  /** `image` is the process the kernel hands back after exec. */
  datatype Command =
    | Load
    | Start(image: Cpu)
    | Run(image: Cpu)
    | Break(addr: Word)
    | Delete(id: int)
    | Set(reg: Register, val: Word)
    | Cont
    | Si

  ghost function RunView(step: Cpu -> Outcome, v: View, image: Cpu): View {
    match v.phase
    case NotLoaded => v
    case Loaded => ContView(step, StartView(v, image))
    case Running(_) => ContView(step, v)
  }

  ghost function CommandView(step: Cpu -> Outcome, v: View, cmd: Command): View {
    match cmd
    case Load => LoadView(v)
    case Start(image) => StartView(v, image)
    case Run(image) => RunView(step, v, image)
    case Break(a) => BreakView(v, a)
    case Delete(id) => DeleteView(v, id)
    case Set(reg, val) => SetView(v, reg, val)
    case Cont => ContView(step, v)
    case Si => SiView(step, v)
  }

  ghost function ScriptView(step: Cpu -> Outcome, v: View, cmds: seq<Command>): View
    decreases |cmds|
  {
    if cmds == [] then v else ScriptView(step, CommandView(step, v, cmds[0]), cmds[1..])
  }

  /** Breakpoints are at sites and the process is in a state of the program. */
  ghost predicate Sound(p: Program, v: View) {
    && Addrs(v.table) <= p.sites
    && (v.phase.Running? ==> v.phase.clean in p.good)
  }

  /** The remembered hit is live, or nothing is remembered, whenever `ripNow` is armed. */
  predicate Guard(v: View) {
    v.phase.Running? && v.ripNow in Addrs(v.table) ==> v.bpaddrNow == 0 || v.bpaddrNow in Addrs(v.table)
  }

  /** The step `si` takes, if any, does not land just past an armed address. */
  predicate StepsClear(step: Cpu -> Outcome, v: View) {
    v.phase.Running? ==> !Overruns(step(v.phase.clean), Addrs(v.table))
  }

  /** `si` leaves the process alone exactly at armed addresses other than a reported one. */
  predicate HoldsStill(v: View)
    requires v.phase.Running?
  {
    var c := v.phase.clean;
    c.rip in Addrs(v.table) && !(c.rip == v.ripNow == v.bpaddrNow)
  }

  /** The conditions under which a command can be issued. */
  ghost predicate Issuable(p: Program, v: View, cmd: Command) {
    match cmd
    case Load => !v.phase.Running?
    case Start(image) => image in p.good
    case Run(image) =>
      && image in p.good
      && (v.phase.Running? ==> ContReturns(p.step, v))
      && (v.phase.Loaded? ==> ContReturns(p.step, StartView(v, image)))
    case Break(a) => a in p.sites
    case Delete(_) => true
    case Set(reg, val) => v.phase.Running? ==> v.phase.clean.Write(reg, val) in p.good
    case Cont => ContReturns(p.step, v)
    case Si => v.phase.Running? ==> HoldsStill(v) || StepsClear(p.step, v)
  }

  /** A command that runs the process also wants the guard. */
  ghost predicate Allowed(p: Program, v: View, cmd: Command) {
    Issuable(p, v, cmd) && (cmd.Cont? || cmd.Si? || cmd.Run? ==> Guard(v))
  }

  ghost predicate ScriptIssuable(p: Program, v: View, cmds: seq<Command>)
    decreases |cmds|
  {
    cmds == [] || (Issuable(p, v, cmds[0]) && ScriptIssuable(p, CommandView(p.step, v, cmds[0]), cmds[1..]))
  }

  ghost predicate ScriptAllowed(p: Program, v: View, cmds: seq<Command>)
    decreases |cmds|
  {
    cmds == [] || (Allowed(p, v, cmds[0]) && ScriptAllowed(p, CommandView(p.step, v, cmds[0]), cmds[1..]))
  }

  lemma {:induction false} WithoutMember(table: seq<Entry>, id: int)
    ensures forall e | e in Without(table, id) :: e in table
  {
    if table != [] && table[0].id != id { WithoutMember(table[1..], id); }
  }

  /** A guarded stuck command leaves the clean process as it is. */
  lemma GuardedStuck(p: Program, v: View, d: Cpu)
    requires Debuggable(p) && d in p.good && v.phase.Running? && Guard(v)
    requires d.rip == v.ripNow && d.rip in Addrs(v.table)
    ensures Smudge(d, v.bpaddrNow, Addrs(v.table)) == d
  {
  }

  lemma ContSound(p: Program, v: View)
    requires Debuggable(p) && Sound(p, v) && Guard(v)
    ensures Sound(p, ContView(p.step, v))
  {
    if v.phase.Running? {
      GoesStaysGood(p, At(Addrs(v.table)), v.phase.clean);
      GoesStops(p.step, At(Addrs(v.table)), v.phase.clean);
      var first := Goes(p.step, At(Addrs(v.table)), v.phase.clean);
      if first.Stopped? {
        GoesStaysGood(p, At(Addrs(v.table) - {first.cpu.rip}), first.cpu);
        if first.cpu.rip == v.ripNow { GuardedStuck(p, v, first.cpu); }
      }
    }
  }

  lemma SiSound(p: Program, v: View)
    requires Debuggable(p) && Sound(p, v) && Allowed(p, v, Si)
    ensures Sound(p, SiView(p.step, v))
  {
  }

  /** Every allowed command keeps the session sound. */
  lemma CommandSound(p: Program, v: View, cmd: Command)
    requires Debuggable(p) && Sound(p, v) && Allowed(p, v, cmd)
    ensures Sound(p, CommandView(p.step, v, cmd))
  {
    match cmd
    case Run(image) =>
      if v.phase.Loaded? { ContSound(p, StartView(v, image)); }
      if v.phase.Running? { ContSound(p, v); }
    case Cont => ContSound(p, v);
    case Si => SiSound(p, v);
    case Delete(id) => WithoutMember(v.table, id);
    case _ =>
  }
}
