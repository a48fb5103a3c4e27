/** The debugger itself: its globals, the bytes it patches, and its commands. */
module Debugger {
  import opened MachineWords
  import opened Processor
  import opened Runs
  import opened Ptrace
  import opened SessionSpec
  import opened SessionRuns
  import opened Transparency

  datatype State = LOADED | RUNNING | OTHERS

  datatype Breakpoint = Breakpoint(id: int, addr: Word, ori: bv8)

  function PointAddrs(points: seq<Breakpoint>): set<Word> {
    set b | b in points :: b.addr
  }

  function TableOf(points: seq<Breakpoint>): seq<Entry> {
    seq(|points|, i requires 0 <= i < |points| => Entry(points[i].id, points[i].addr))
  }

  /** Addresses are pairwise distinct; ids increase along the table and stay below `bpid`. */
  ghost predicate WellFormed(points: seq<Breakpoint>, bpid: int) {
    && (forall i, j | 0 <= i < j < |points| :: points[i].addr != points[j].addr && points[i].id < points[j].id)
    && (forall b | b in points :: b.id < bpid)
  }

  ghost function OriAt(points: seq<Breakpoint>, a: Word): bv8
    requires a in PointAddrs(points)
  {
    var b :| b in points && b.addr == a; b.ori
  }

  /** Memory with every saved byte put back. */
  ghost function Restored(mem: Memory, points: seq<Breakpoint>): Memory {
    map a | a in mem :: if a in PointAddrs(points) then OriAt(points, a) else mem[a]
  }

  /** `cpu` is the process `c` with every breakpoint armed, and the table saves its bytes. */
  ghost predicate Shows(cpu: Cpu, points: seq<Breakpoint>, c: Cpu) {
    && cpu == Patch(c, PointAddrs(points))
    && forall b | b in points :: WordMapped(c.mem, b.addr) && b.ori == c.mem[b.addr]
  }

  lemma TableAddrs(points: seq<Breakpoint>)
    ensures Addrs(TableOf(points)) == PointAddrs(points)
  {
    var table := TableOf(points);
    forall a | a in PointAddrs(points) ensures a in Addrs(table) {
      var i :| 0 <= i < |points| && points[i].addr == a;
      assert table[i] in table;
    }
  }

  lemma OriUnique(points: seq<Breakpoint>, bpid: int, b: Breakpoint)
    requires WellFormed(points, bpid) && b in points
    ensures OriAt(points, b.addr) == b.ori
  {
  }

  /** Armed bytes and mapped words are all it takes to show the process got by putting the saved
      bytes back. */
  lemma RestoredShows(cpu: Cpu, points: seq<Breakpoint>, bpid: int)
    requires WellFormed(points, bpid)
    requires forall b | b in points :: WordMapped(cpu.mem, b.addr) && cpu.mem[b.addr] == INT3
    ensures Shows(cpu, points, cpu.(mem := Restored(cpu.mem, points)))
  {
  }

  lemma ShowsLater(p: Program, points: seq<Breakpoint>, c: Cpu, d: Cpu)
    requires Debuggable(p) && d in p.good && SameSites(p, c, d) && PointAddrs(points) <= p.sites
    requires Shows(Patch(c, PointAddrs(points)), points, c)
    ensures Shows(Patch(d, PointAddrs(points)), points, d)
  {
  }

  /** Putting one saved byte back disarms exactly that breakpoint; writing `int3` re-arms it. */
  lemma DisarmOne(d: Cpu, armed: set<Word>, a: Word)
    requires a in d.mem && a in armed
    ensures Patch(d, armed).mem[a := d.mem[a]] == Patch(d, armed - {a}).mem
    ensures Patch(d, armed - {a}).mem[a := INT3] == Patch(d, armed).mem
    ensures Patch(d, armed).mem[a := INT3] == Patch(d, armed).mem
  {
  }

  lemma ShowsSmudged(points: seq<Breakpoint>, d: Cpu, x: Word)
    requires Shows(Patch(d, PointAddrs(points)), points, d)
    ensures var e := Smudge(d, x, PointAddrs(points)); var m := Patch(d, PointAddrs(points)).mem;
      && Shows(Patch(e, PointAddrs(points)), points, e)
      && Patch(e, PointAddrs(points)).mem == if WordMapped(d.mem, x) then m[x := INT3] else m
  {
  }

  /** A poke of `byte` at `addr`; unmapped words are left alone. */
  function Poked(c: Cpu, addr: Word, byte: bv8): Cpu {
    if WordMapped(c.mem, addr) then c.(mem := c.mem[addr := byte]) else c
  }

  /** Stepping over an armed breakpoint: with its byte back, the process runs as the clean one
      does until the next other breakpoint. */
  lemma OverBreakpoint(p: Program, points: seq<Breakpoint>, d: Cpu)
    requires Debuggable(p) && d in p.good && PointAddrs(points) <= p.sites && d.rip in PointAddrs(points)
    ensures var armed := PointAddrs(points); var rest := armed - {d.rip};
      && d.rip in d.mem
      && Poked(Patch(d, armed), d.rip, d.mem[d.rip]) == Patch(d, rest)
      && Goes(p.step, Trap(), Patch(d, rest)) == PatchArrival(Goes(p.step, At(rest), d), rest)
      && var a := Goes(p.step, At(rest), d);
         a.Stopped? ==>
           && a.cpu in p.good && SameSites(p, d, a.cpu)
           && a.cpu.rip in rest
           && Poked(Patch(a.cpu, rest), d.rip, INT3) == Patch(a.cpu, armed)
  {
    var armed := PointAddrs(points);
    var rest := armed - {d.rip};
    assert SitesMapped(p, d) && WordMapped(d.mem, d.rip);
    DisarmOne(d, armed, d.rip);
    GoesPatched(p, d, rest);
    GoesStops(p.step, At(rest), d);
    GoesStaysGood(p, At(rest), d);
    var a := Goes(p.step, At(rest), d);
    if a.Stopped? {
      assert SitesMapped(p, a.cpu) && WordMapped(a.cpu.mem, d.rip);
      DisarmOne(a.cpu, armed, d.rip);
    }
  }

  /** With another address "disarmed", the process traps again where it is. */
  lemma StuckAtBreakpoint(step: Cpu -> Outcome, points: seq<Breakpoint>, d: Cpu, x: Word, byte: bv8)
    requires Shows(Patch(d, PointAddrs(points)), points, d) && d.rip in PointAddrs(points) && x != d.rip
    ensures var armed := PointAddrs(points); var c := Poked(Patch(d, armed), x, byte);
      && AtTrap(c) && Goes(step, Trap(), c) == Stopped(c)
      && Poked(c, x, INT3) == Patch(Smudge(d, x, armed), armed)
  {
    var armed := PointAddrs(points);
    var c := Poked(Patch(d, armed), x, byte);
    var b :| b in points && b.addr == d.rip;
    assert WordMapped(d.mem, d.rip);
    assert Patch(d, armed).mem.Keys == d.mem.Keys;
    assert c.mem.Keys == d.mem.Keys by {
      if WordMapped(Patch(d, armed).mem, x) { assert x in d.mem; }
    }
    GoesUnfold(step, Trap(), c);
    ShowsSmudged(points, d, x);
    if WordMapped(d.mem, x) {
      assert Poked(c, x, INT3).mem == Patch(d, armed).mem[x := INT3];
    }
  }

  /** The same for a single step: with its byte back, the process makes its clean step. */
  lemma StepOverBreakpoint(p: Program, points: seq<Breakpoint>, d: Cpu)
    requires Debuggable(p) && d in p.good && PointAddrs(points) <= p.sites && d.rip in PointAddrs(points)
    ensures var armed := PointAddrs(points); var rest := armed - {d.rip};
      && d.rip in d.mem
      && Poked(Patch(d, armed), d.rip, d.mem[d.rip]) == Patch(d, rest)
      && !AtTrap(Patch(d, rest)) && p.step(Patch(d, rest)) == PatchOutcome(p.step(d), rest)
      && (p.step(d).Next? ==>
           var e := p.step(d).cpu;
           e in p.good && SameSites(p, d, e) && Poked(Patch(e, rest), d.rip, INT3) == Patch(e, armed))
  {
  }

  lemma ShowsWritten(points: seq<Breakpoint>, c: Cpu, reg: Register, val: Word)
    requires Shows(Patch(c, PointAddrs(points)), points, c)
    ensures var d := c.Write(reg, val);
      Patch(c, PointAddrs(points)).Write(reg, val) == Patch(d, PointAddrs(points))
      && Shows(Patch(d, PointAddrs(points)), points, d)
  {
  }

  /** One step of the shown process: the trap if it stands at a breakpoint, its clean step if not. */
  lemma ShownStep(p: Program, points: seq<Breakpoint>, c: Cpu)
    requires Debuggable(p) && c in p.good && PointAddrs(points) <= p.sites
    requires Shows(Patch(c, PointAddrs(points)), points, c)
    ensures var armed := PointAddrs(points); var one := OneStep(p.step, Patch(c, armed));
      if c.rip in armed then one == Stopped(Patch(c, armed).(rip := After(c.rip)))
      else match p.step(c)
        case Exit(s) => one == Exited(s)
        case Next(d) => one == Stopped(Patch(d, armed)) && Shows(Patch(d, armed), points, d)
  {
  }

  lemma ArmOne(points: seq<Breakpoint>, c: Cpu, bp: Breakpoint)
    requires Shows(Patch(c, PointAddrs(points)), points, c)
    requires bp.addr !in PointAddrs(points) && WordMapped(c.mem, bp.addr) && bp.ori == c.mem[bp.addr]
    ensures var m := Patch(c, PointAddrs(points)).mem;
      && m[bp.addr] == bp.ori
      && Shows(c.(mem := m[bp.addr := INT3]), points + [bp], c)
  {
  }

  lemma RemovedAddrs(points: seq<Breakpoint>, bpid: int, i: nat)
    requires WellFormed(points, bpid) && i < |points|
    ensures var rest := points[..i] + points[i + 1..];
      && WellFormed(rest, bpid) && (forall b | b in rest :: b in points)
      && PointAddrs(rest) == PointAddrs(points) - {points[i].addr}
  {
  }

  lemma RemoveOne(points: seq<Breakpoint>, bpid: int, c: Cpu, i: nat)
    requires WellFormed(points, bpid) && i < |points|
    requires Shows(Patch(c, PointAddrs(points)), points, c)
    ensures var m := Patch(c, PointAddrs(points)).mem; var rest := points[..i] + points[i + 1..];
      && WordMapped(c.mem, points[i].addr)
      && WellFormed(rest, bpid)
      && Shows(c.(mem := m[points[i].addr := points[i].ori]), rest, c)
  {
    var bp := points[i];
    RemovedAddrs(points, bpid, i);
    assert bp in points && bp.addr in c.mem;
    DisarmOne(c, PointAddrs(points), bp.addr);
  }

  lemma {:induction false} WithoutAt(points: seq<Breakpoint>, i: nat)
    requires i < |points| && forall j | 0 <= j < i :: points[j].id != points[i].id
    ensures Without(TableOf(points), points[i].id) == TableOf(points[..i] + points[i + 1..])
  {
    if i == 0 {
      assert TableOf(points)[1..] == TableOf(points[..0] + points[1..]);
    } else {
      WithoutAt(points[1..], i - 1);
      assert TableOf(points)[1..] == TableOf(points[1..]);
      assert points[..i] + points[i + 1..] == [points[0]] + (points[1..][..i - 1] + points[1..][i..]);
    }
  }

  lemma {:induction false} WithoutNone(points: seq<Breakpoint>, id: int)
    requires forall b | b in points :: b.id != id
    ensures Without(TableOf(points), id) == TableOf(points)
  {
    if points != [] {
      assert TableOf(points)[1..] == TableOf(points[1..]);
      WithoutNone(points[1..], id);
    }
  }

  class Debugger {
    const program: Program
    var child: Tracee?
    var state: State
    var points: seq<Breakpoint>
    var bpid: int
    var restore: bv8
    var ripNow: Word
    var bpaddrNow: Word
    var out: seq<Report>

    constructor (program: Program)
      ensures this.program == program && child == null && Valid()
      ensures View() == SessionSpec.View(NotLoaded, [], 0, 0, 0, [])
    {
      this.program := program;
      child, state, points, bpid := null, OTHERS, [], 0;
      restore, ripNow, bpaddrNow, out := 0, 0, 0, [];
    }

    /** The overlay invariant: while RUNNING, every live breakpoint is `int3` in the process. */
    ghost predicate Valid()
      reads this, child
    {
      && WellFormed(points, bpid)
      && (state == RUNNING ==>
            && child != null && child.status == Halted && child.step == program.step
            && forall b | b in points :: WordMapped(child.cpu.mem, b.addr) && child.cpu.mem[b.addr] == INT3)
    }

    /** The process with every saved byte put back. */
    ghost function Clean(): Cpu
      requires child != null
      reads this, child
    {
      child.cpu.(mem := Restored(child.cpu.mem, points))
    }

    ghost function View(): View
      requires Valid()
      reads this, child
    {
      SessionSpec.View(
        match state case OTHERS => NotLoaded case LOADED => Loaded case RUNNING => Running(Clean()),
        TableOf(points), bpid, ripNow, bpaddrNow, out)
    }

    /** A shown process keeps the invariant, and is the one the view speaks of. */
    lemma Shown(d: Cpu)
      requires WellFormed(points, bpid) && state == RUNNING
      requires child != null && child.status == Halted && child.step == program.step
      requires Shows(child.cpu, points, d)
      ensures Valid() && Clean() == d && View().phase == Running(d)
    {
    }

    method ReplaceByte(addr: Word, byte: bv8) returns (was: bv8)
      requires child != null
      modifies child`cpu
      ensures var m := old(child.cpu.mem);
        if child.status.Halted? && WordMapped(m, addr)
        then was == m[addr] && child.cpu == old(child.cpu).(mem := m[addr := byte])
        else was == 0xff && child.cpu == old(child.cpu)
    {
      var word := child.PeekText(addr);
      child.PokeText(addr, Splice(word, byte));
      was := LowByte(word);
      if child.status.Halted? && WordMapped(old(child.cpu.mem), addr) {
        SpliceOneByte(old(child.cpu.mem), addr, byte);
      }
    }

    /** What a finished wait means for the debugger; `1` asks for a step over the breakpoint. */
    method CheckStop() returns (ret: int)
      requires state == RUNNING && child != null && !child.Settles().Pending?
      requires WellFormed(points, bpid)
      modifies this, child
      ensures child == old(child) && points == old(points) && bpid == old(bpid)
      ensures match old(child.Settles())
        case Exited(s) =>
          && ret == -1 && state == LOADED && child.status == Dead(s)
          && out == old(out) + [Terminated(s)]
          && ripNow == old(ripNow) && bpaddrNow == old(bpaddrNow)
        case Stopped(m) =>
          var a := Before(m.rip);
          && state == RUNNING && child.status == Halted
          && (if a !in PointAddrs(points) then
                ret == -1 && child.cpu == m && out == old(out) && ripNow == old(ripNow) && bpaddrNow == old(bpaddrNow)
              else if old(ripNow) == a then
                && ret == 1 && child.cpu == m.(rip := a) && restore == OriAt(points, a)
                && out == old(out) && ripNow == a && bpaddrNow == old(bpaddrNow)
              else
                && ret == 0 && child.cpu == m.(rip := a)
                && out == old(out) + [Hit(a)] && ripNow == a && bpaddrNow == a)
    {
      child.Wait();
      match child.status {
        case Halted =>
          var rip, regs := child.GetRegs();
          var i := 0;
          while i < |points|
            invariant 0 <= i <= |points|
            invariant forall b | b in points[..i] :: b.addr != Before(rip)
          {
            if points[i].addr == Before(rip) {
              OriUnique(points, bpid, points[i]);
              assert points[i] in points;
              if ripNow == points[i].addr {
                child.SetRegs(Before(rip), regs);
                restore := points[i].ori;
                return 1;
              }
              bpaddrNow := points[i].addr;
              out := out + [Hit(points[i].addr)];
              ripNow := Before(rip);
              child.SetRegs(Before(rip), regs);
              return 0;
            }
            i := i + 1;
          }
          return -1;
        case Dead(s) =>
          out := out + [Terminated(s)];
          state := LOADED;
          return -1;
      }
    }

    /** The hypotheses under which the debugger can be transparent. */
    ghost predicate Ready()
      requires Valid()
      reads this, child
    {
      Debuggable(program) && Sound(program, View())
    }

    /** Lines 522-528: disarm `bpaddrNow`, run on, and re-arm it.  The early re-arm finds the
        process stopped or still running; either way the outcome is the same. */
    method ContOver()
      requires WellFormed(points, bpid) && state == RUNNING
      requires child != null && child.status.Halted?
      requires var a := Goes(child.step, Trap(), Poked(child.cpu, bpaddrNow, restore));
        !a.Pending? && (a.Stopped? ==> a.cpu.rip in PointAddrs(points))
      modifies this, child
      ensures child == old(child) && points == old(points) && bpid == old(bpid)
      ensures match old(Goes(child.step, Trap(), Poked(child.cpu, bpaddrNow, restore)))
        case Exited(s) =>
          && state == LOADED && out == old(out) + [Terminated(s)] && ripNow == old(ripNow) && bpaddrNow == 0
        case Stopped(m) =>
          && state == RUNNING && child.status == Halted && child.cpu == Poked(m, old(bpaddrNow), INT3)
          && ripNow == m.rip
          && (if m.rip == old(ripNow) then bpaddrNow == 0 && out == old(out)
              else bpaddrNow == m.rip && out == old(out) + [Hit(m.rip)])
    {
      var addr := bpaddrNow;
      ghost var arrival := Goes(child.step, Trap(), Poked(child.cpu, addr, restore));
      var _ := ReplaceByte(addr, restore);
      child.Continue();
      var k: nat := *;
      child.Advance(k);
      var _ := ReplaceByte(addr, INT3);
      if child.status.Halted? {
        assert child.cpu == Poked(arrival.cpu.(rip := After(arrival.cpu.rip)), addr, INT3);
      }
      bpaddrNow := 0;
      var _ := CheckStop();
      var _ := ReplaceByte(addr, INT3);
    }

    /** The second half of `cont`, in terms of the clean process `d` stopped at its breakpoint. */
    method ContFromBreakpoint(ghost d: Cpu)
      requires Valid() && Ready() && state == RUNNING && Clean() == d && d.rip in PointAddrs(points)
      requires ripNow == d.rip && restore == d.mem[d.rip]
      requires bpaddrNow == d.rip ==> !Goes(program.step, At(PointAddrs(points) - {d.rip}), d).Pending?
      modifies this, child
      ensures child == old(child) && Valid()
      ensures View() == ContAtBreakpoint(program.step, old(View()), d)
    {
      ghost var armed, x := PointAddrs(points), bpaddrNow;
      RestoredShows(child.cpu, points, bpid);
      TableAddrs(points);
      if x == d.rip {
        OverBreakpoint(program, points, d);
      } else {
        StuckAtBreakpoint(program.step, points, d, x, restore);
      }
      ContOver();
      if x != d.rip {
        ShowsSmudged(points, d, x);
        Shown(Smudge(d, x, armed));
      } else if state == RUNNING {
        ghost var e := Goes(program.step, At(armed - {d.rip}), d).cpu;
        ShowsLater(program, points, d, e);
        Shown(e);
      }
    }

    method Cont()
      requires Valid() && Ready() && ContReturns(program.step, View())
      modifies this, child
      ensures child == old(child) && Valid()
      ensures View() == ContView(program.step, old(View()))
    {
      if state != RUNNING { return; }
      ghost var armed, c := PointAddrs(points), Clean();
      RestoredShows(child.cpu, points, bpid);
      TableAddrs(points);
      GoesPatched(program, c, armed);
      GoesStops(program.step, At(armed), c);
      GoesStaysGood(program, At(armed), c);
      ghost var first := Goes(program.step, At(armed), c);

      child.Continue();
      var ret := CheckStop();
      if first.Stopped? {
        ShowsLater(program, points, c, first.cpu);
        Shown(first.cpu);
      }
      if ret == 1 {
        ContFromBreakpoint(first.cpu);
      }
    }

    /** Lines 544-549: disarm `bpaddrNow`, take one step, and re-arm it. */
    method SiOver()
      requires WellFormed(points, bpid) && state == RUNNING
      requires child != null && child.status.Halted?
      modifies this, child
      ensures child == old(child) && points == old(points) && bpid == old(bpid)
      ensures match old(OneStep(child.step, Poked(child.cpu, bpaddrNow, restore)))
        case Exited(s) =>
          && state == LOADED && out == old(out) + [Terminated(s)] && ripNow == old(ripNow) && bpaddrNow == 0
        case Stopped(m) =>
          var a := Before(m.rip);
          && state == RUNNING && child.status == Halted
          && (if a !in PointAddrs(points) then
                && child.cpu == Poked(m, old(bpaddrNow), INT3)
                && ripNow == old(ripNow) && bpaddrNow == 0 && out == old(out)
              else
                && child.cpu == Poked(m.(rip := a), old(bpaddrNow), INT3) && ripNow == a
                && if a == old(ripNow) then bpaddrNow == 0 && out == old(out)
                   else bpaddrNow == a && out == old(out) + [Hit(a)])
    {
      var addr := bpaddrNow;
      var _ := ReplaceByte(addr, restore);
      child.SingleStep();
      bpaddrNow := 0;
      var _ := CheckStop();
      var _ := ReplaceByte(addr, INT3);
    }

    /** The second half of `si`, in terms of the clean process `d` stopped at its breakpoint. */
    method SiFromBreakpoint(ghost d: Cpu)
      requires Valid() && Debuggable(program) && PointAddrs(points) <= program.sites
      requires state == RUNNING && Clean() == d && d.rip in PointAddrs(points)
      requires ripNow == d.rip && restore == d.mem[d.rip]
      requires bpaddrNow == d.rip ==> d in program.good
      modifies this, child
      ensures child == old(child) && Valid()
      ensures View() == SiAtBreakpoint(program.step, old(View()), d)
    {
      ghost var armed, x := PointAddrs(points), bpaddrNow;
      RestoredShows(child.cpu, points, bpid);
      TableAddrs(points);
      if x == d.rip {
        StepOverBreakpoint(program, points, d);
      } else {
        StuckAtBreakpoint(program.step, points, d, x, restore);
      }
      SiOver();
      if x != d.rip {
        ShowsSmudged(points, d, x);
        Shown(Smudge(d, x, armed));
      } else if state == RUNNING {
        ghost var e := program.step(d).cpu;
        ghost var f := if Before(e.rip) in armed then Rewound(e) else e;
        ShowsLater(program, points, d, e);
        Shown(f);
      }
    }

    /** Lines 540-541, in terms of the clean process: `d` is where the debugger believes it is. */
    method SiFirst() returns (ret: int, ghost d: Cpu)
      requires Valid() && Ready() && state == RUNNING
      modifies this, child
      ensures child == old(child) && points == old(points) && Valid()
      ensures var c, armed, o := old(Clean()), PointAddrs(points), program.step(old(Clean()));
        && d == (if c.rip in armed || o.Exit? then c else if Overruns(o, armed) then Rewound(o.cpu) else o.cpu)
        && if c.rip !in armed && o.Exit? then ret == -1 && View() == Finish(old(View()), o.status)
           else if d.rip !in armed || (c.rip !in armed && !Overruns(o, armed)) then
             ret == -1 && View() == old(View()).(phase := Running(d))
           else if d.rip != old(ripNow) then ret == 0 && View() == Announce(old(View()), d)
           else ret == 1 && View() == old(View()).(phase := Running(d)) && restore == d.mem[d.rip]
    {
      ghost var armed, c := PointAddrs(points), Clean();
      TableAddrs(points);
      RestoredShows(child.cpu, points, bpid);
      ShownStep(program, points, c);
      d := if c.rip in armed || program.step(c).Exit? then c
           else if Overruns(program.step(c), armed) then Rewound(program.step(c).cpu)
           else program.step(c).cpu;
      child.SingleStep();
      ret := CheckStop();
      if state == RUNNING { Shown(d); }
    }

    method Si()
      requires Valid() && Ready() && SiOnGoodStates(program, View())
      modifies this, child
      ensures child == old(child) && Valid()
      ensures View() == SiView(program.step, old(View()))
    {
      if state != RUNNING { return; }
      TableAddrs(points);
      var ret, d := SiFirst();
      if ret == 1 {
        SiFromBreakpoint(d);
      }
    }

    /** Lines 571-576: a new row for `addr`, whose byte was `ori` in the clean process `c`. */
    method Record(addr: Word, ori: bv8, ghost c: Cpu)
      requires WellFormed(points, bpid) && state == RUNNING && addr !in PointAddrs(points)
      requires child != null && child.status == Halted && child.step == program.step
      requires Shows(Patch(c, PointAddrs(points)), points, c)
      requires child.cpu == Poked(Patch(c, PointAddrs(points)), addr, INT3)
      requires WordMapped(c.mem, addr) ==> ori == c.mem[addr]
      modifies this`points, this`bpid
      ensures WellFormed(points, bpid)
      ensures TableOf(points) == old(TableOf(points)) + [Entry(old(bpid), addr)] && bpid == old(bpid) + 1
      ensures points == old(points) + [Breakpoint(old(bpid), addr, ori)]
      ensures Valid() <==> WordMapped(c.mem, addr)
      ensures Valid() ==> Clean() == c
    {
      var tmp := Breakpoint(bpid, addr, ori);
      bpid := bpid + 1;
      points := points + [tmp];
      assert tmp in points;
      assert Patch(c, old(PointAddrs(points))).mem.Keys == c.mem.Keys;
      if WordMapped(c.mem, addr) {
        ArmOne(old(points), c, tmp);
        Shown(c);
      }
    }

    /** Lines 568-570: is there a row for `addr`? */
    method Listed(addr: Word) returns (found: bool)
      ensures found <==> addr in PointAddrs(points)
    {
      var i := 0;
      while i < |points|
        invariant 0 <= i <= |points|
        invariant forall b | b in points[..i] :: b.addr != addr
      {
        if points[i].addr == addr {
          assert points[i] in points;
          return true;
        }
        i := i + 1;
      }
      return false;
    }

    /** `break`: the overlay survives exactly if the word at `addr` can be patched. */
    method Break(addr: Word)
      requires Valid()
      modifies this, child
      ensures child == old(child)
      ensures Valid() <==> old(state != RUNNING || addr in PointAddrs(points) || WordMapped(child.cpu.mem, addr))
      ensures Valid() ==> View() == BreakView(old(View()), addr)
      ensures !Valid() ==> state == RUNNING && child.cpu == old(child.cpu)
      ensures unchanged(`state, `ripNow, `bpaddrNow, `out)
      ensures state != RUNNING || addr in PointAddrs(old(points)) ==> points == old(points) && bpid == old(bpid)
      ensures state == RUNNING && addr !in PointAddrs(old(points)) ==>
        bpid == old(bpid) + 1 && exists ori :: points == old(points) + [Breakpoint(old(bpid), addr, ori)]
    {
      if state != RUNNING { return; }
      Arm(addr);
    }

    /** Lines 566-577, in a running process. */
    method Arm(addr: Word)
      requires Valid() && state == RUNNING
      modifies this`points, this`bpid, child`cpu
      ensures Valid() <==> addr in PointAddrs(old(points)) || WordMapped(old(child.cpu.mem), addr)
      ensures Valid() ==> View() == BreakView(old(View()), addr)
      ensures !Valid() ==> child.cpu == old(child.cpu)
      ensures if addr in PointAddrs(old(points)) then points == old(points) && bpid == old(bpid)
        else bpid == old(bpid) + 1 && exists ori :: points == old(points) + [Breakpoint(old(bpid), addr, ori)]
    {
      hide WellFormed, Restored;
      TableAddrs(points);
      ghost var c, v := Clean(), View();
      RestoredShows(child.cpu, points, bpid);
      assert child.cpu.mem.Keys == c.mem.Keys;
      var ori := ReplaceByte(addr, INT3);
      assert child.cpu == Poked(Patch(c, PointAddrs(points)), addr, INT3);
      var found := Listed(addr);
      if found {
        DisarmOne(c, PointAddrs(points), addr);
        Shown(c);
        assert View() == BreakView(v, addr);
      } else {
        Record(addr, ori, c);
        assert Valid() ==> View() == BreakView(v, addr);
        assert points == old(points) + [Breakpoint(old(bpid), addr, ori)];
      }
    }

    method Delete(id: int)
      requires Valid()
      modifies this, child
      ensures child == old(child) && Valid() && View() == DeleteView(old(View()), id)
      ensures unchanged(`state, `bpid, `ripNow, `bpaddrNow, `out)
      ensures state != RUNNING ==> points == old(points)
      ensures state == RUNNING ==> forall b :: b in points <==> b in old(points) && b.id != id
    {
      hide Restored;
      if state != RUNNING { return; }
      var i := 0;
      while i < |points|
        invariant 0 <= i <= |points|
        invariant forall b | b in points[..i] :: b.id != id
      {
        if points[i].id == id {
          ghost var c := Clean();
          RestoredShows(child.cpu, points, bpid);
          RemoveOne(points, bpid, c, i);
          WithoutAt(points, i);
          var _ := ReplaceByte(points[i].addr, points[i].ori);
          points := points[..i] + points[i + 1..];
          Shown(c);
          return;
        }
        i := i + 1;
      }
      WithoutNone(points, id);
    }

    method Set(reg: Register, val: Word)
      requires Valid()
      modifies this, child
      ensures child == old(child) && Valid() && View() == SetView(old(View()), reg, val)
      ensures unchanged(`state, `points, `bpid, `bpaddrNow, `out)
      ensures state != RUNNING ==> ripNow == old(ripNow)
      ensures state == RUNNING ==> child.cpu.mem == old(child.cpu).mem
      ensures state == RUNNING && reg == Rip ==>
        child.cpu.rip == val == ripNow && child.cpu.regs == old(child.cpu).regs
      ensures state == RUNNING && reg != Rip ==>
        var was, now := old(child.cpu).regs, child.cpu.regs;
        && child.cpu.rip == old(child.cpu).rip && ripNow == old(ripNow)
        && reg in now && now[reg] == val
        && (forall r | r != reg :: r in now <==> r in was)
        && forall r | r != reg && r in was :: now[r] == was[r]
    {
      hide WellFormed, Restored, Cpu.Write;
      if state != RUNNING { return; }
      ghost var c := Clean();
      RestoredShows(child.cpu, points, bpid);
      WriteOne(child.cpu, reg, val);
      var rip, regs := child.GetRegs();
      if reg == Rip {
        rip := val;
        ripNow := val;
      } else {
        regs := regs[reg := val];
      }
      child.SetRegs(rip, regs);
      assert child.cpu == old(child.cpu).Write(reg, val);
      ShowsWritten(points, c, reg, val);
      Shown(c.Write(reg, val));
    }

    method Load()
      requires Valid() && state != RUNNING
      modifies this
      ensures child == old(child) && Valid() && View() == LoadView(old(View()))
      ensures state == LOADED && unchanged(`points, `bpid, `ripNow, `bpaddrNow, `out)
    {
      if state == LOADED { return; }
      state := LOADED;
    }

    /** `image` is the stopped process that fork and exec produce. */
    method Start(image: Cpu)
      requires Valid()
      modifies this, child
      ensures (child == old(child) || fresh(child)) && Valid()
      ensures View() == StartView(old(View()), image)
      ensures unchanged(`bpid, `ripNow, `bpaddrNow, `out)
      ensures old(state) == OTHERS ==> unchanged(this)
      ensures old(state) != OTHERS ==>
        && state == RUNNING && points == [] && child != null && fresh(child)
        && child.cpu == image && child.status == Halted
    {
      if state == OTHERS { return; }
      if state == RUNNING { child := null; }
      points := [];
      child := new Tracee(program.step, image);
      state := RUNNING;
      assert Shows(child.cpu, points, image) by { assert Overlay(image.mem, {}) == image.mem; }
      Shown(image);
    }

    method Run(image: Cpu)
      requires Valid() && Ready() && Allowed(program, View(), SessionSpec.Run(image))
      modifies this, child
      ensures (child == old(child) || fresh(child)) && Valid()
      ensures View() == RunView(program.step, old(View()), image)
      ensures old(state) == OTHERS ==> View() == old(View())
      ensures old(state) == LOADED ==> View() == ContView(program.step, StartView(old(View()), image))
      ensures old(state) == RUNNING ==> View() == ContView(program.step, old(View()))
    {
      if state == RUNNING {
        Cont();
      } else if state == LOADED {
        Start(image);
        Cont();
      }
    }

    method Execute(cmd: Command)
      requires Valid() && Ready() && Allowed(program, View(), cmd)
      modifies this, child
      ensures (child == old(child) || fresh(child)) && Valid() && Ready()
      ensures View() == CommandView(program.step, old(View()), cmd)
    {
      CommandSound(program, View(), cmd);
      match cmd {
        case Load => Load();
        case Start(image) => Start(image);
        case Run(image) => Run(image);
        case Break(a) =>
          if state == RUNNING {
            assert SitesMapped(program, Clean()) && WordMapped(Clean().mem, a);
            assert Clean().mem.Keys == child.cpu.mem.Keys;
          }
          Break(a);
        case Delete(id) => Delete(id);
        case Set(reg, val) => Set(reg, val);
        case Cont => Cont();
        case Si => Si();
      }
    }

    /** Any interleaving of `break`, at words that can be patched, and `delete`: the process is its
        clean self overlaid with the breakpoints left, and exactly its clean self with none left. */
    method EditBreakpoints(edits: seq<Command>)
      requires Valid() && state == RUNNING && OnlyEdits(edits)
      requires forall cmd | cmd in edits && cmd.Break? :: WordMapped(child.cpu.mem, cmd.addr)
      modifies this, child
      ensures child == old(child) && Valid() && View() == ScriptView(program.step, old(View()), edits)
      ensures state == RUNNING && Clean() == old(Clean())
      ensures child.cpu.mem == Overlay(old(Clean()).mem, PointAddrs(points))
      ensures child.cpu.mem.Keys == old(Clean()).mem.Keys
      ensures forall a | a in child.cpu.mem ::
        child.cpu.mem[a] == if a in PointAddrs(points) then 0xcc else old(Clean()).mem[a]
      ensures child.cpu == Patch(old(Clean()), PointAddrs(points))
      ensures points == [] ==> child.cpu == old(Clean())
    {
      ghost var c, v := Clean(), View();
      var i := 0;
      while i < |edits|
        invariant 0 <= i <= |edits| && child == old(child) && child != null && Valid()
        invariant state == RUNNING && Clean() == c && child.cpu.mem.Keys == old(child.cpu.mem).Keys
        invariant ScriptView(program.step, View(), edits[i..]) == ScriptView(program.step, v, edits)
      {
        assert edits[i] in edits && edits[i..][0] == edits[i] && edits[i..][1..] == edits[i + 1..];
        EditOne(edits[i]);
        i := i + 1;
      }
      RestoredShows(child.cpu, points, bpid);
      assert Overlay(c.mem, {}) == c.mem;
    }

    method EditOne(cmd: Command)
      requires Valid() && state == RUNNING && (cmd.Break? || cmd.Delete?)
      requires cmd.Break? ==> WordMapped(child.cpu.mem, cmd.addr)
      modifies this, child
      ensures child == old(child) && Valid() && View() == CommandView(program.step, old(View()), cmd)
      ensures state == RUNNING && Clean() == old(Clean()) && child.cpu.mem.Keys == old(child.cpu.mem).Keys
    {
      ghost var c := Clean();
      match cmd {
        case Break(a) => Break(a);
        case Delete(id) => Delete(id);
      }
      assert View().phase == Running(c);
      assert child.cpu.mem.Keys == Clean().mem.Keys;
    }

    /** The command loop: a whole session is its meaning on the clean process. */
    method Session(cmds: seq<Command>, ghost o: Origin)
      requires Valid() && Ready() && ScriptAllowed(program, View(), cmds)
      requires Explained(program.step, o, View())
      modifies this, child
      ensures Valid() && Ready() && View() == ScriptView(program.step, old(View()), cmds)
      ensures state == RUNNING ==> child != null && child.cpu == Patch(Clean(), Addrs(View().table))
      ensures Explained(program.step, TrackAll(program.step, o, old(View()), cmds), View())
      ensures exists runs :: Chronicle(program.step, o, old(View()), cmds, runs)
    {
      SessionTransparent(program, o, View(), cmds);
      ghost var events :| ExplainedBy(program.step, o, View(), events);
      ghost var _ := SessionChronicle(program, o, View(), cmds, events);
      var i := 0;
      while i < |cmds|
        invariant 0 <= i <= |cmds| && (child == old(child) || fresh(child))
        invariant Valid() && Ready() && ScriptAllowed(program, View(), cmds[i..])
        invariant ScriptView(program.step, View(), cmds[i..]) == ScriptView(program.step, old(View()), cmds)
      {
        Execute(cmds[i]);
        assert cmds[i..][1..] == cmds[i + 1..];
        i := i + 1;
      }
      if state == RUNNING {
        RestoredShows(child.cpu, points, bpid);
        TableAddrs(points);
      }
    }
  }
}
