/**
 The traced process and the ptrace requests the debugger makes.  Requests to a process that is
 not stopped, and pokes to unmapped words, have no effect.
 */
module Ptrace {
  import opened MachineWords
  import opened Processor
  import opened Runs

  datatype Status = Halted | Going | Stepping | Dead(status: int)

  /** The trap instruction is executed: the process stops with `rip` just past it. */
  function PastTrap(a: Arrival): Arrival {
    match a
    case Stopped(c) => Stopped(c.(rip := After(c.rip)))
    case Exited(_) => a
    case Pending(_) => a
  }

  function OneStep(step: Cpu -> Outcome, c: Cpu): Arrival {
    if AtTrap(c) then PastTrap(Stopped(c))
    else match step(c)
      case Next(d) => Stopped(d)
      case Exit(s) => Exited(s)
  }

  class Tracee {
    const step: Cpu -> Outcome
    var cpu: Cpu
    var status: Status

    constructor (step: Cpu -> Outcome, image: Cpu)
      ensures this.step == step && cpu == image && status == Halted
    {
      this.step := step;
      cpu := image;
      status := Halted;
    }

    /** What the next `waitpid` will find. */
    ghost function Settles(): Arrival
      reads this
    {
      match status
      case Halted => Stopped(cpu)
      case Dead(s) => Exited(s)
      case Going => PastTrap(Goes(step, Trap(), cpu))
      case Stepping => OneStep(step, cpu)
    }

    method Continue()
      modifies this`status
      ensures status == if old(status).Halted? then Going else old(status)
    {
      if status.Halted? { status := Going; }
    }

    method SingleStep()
      modifies this`status
      ensures status == if old(status).Halted? then Stepping else old(status)
    {
      if status.Halted? { status := Stepping; }
    }

    /** The running process executes one instruction. */
    method Tick()
      requires status.Going? && !Settles().Pending?
      modifies this
      ensures Settles() == old(Settles())
      ensures status.Going? || Settles() == old(OneStep(step, cpu))
      ensures status.Going? ==> !old(AtTrap(cpu)) && old(step(cpu)) == Next(cpu)
      ensures !status.Stepping?
    {
      GoesUnfold(step, Trap(), cpu);
      if AtTrap(cpu) {
        cpu := cpu.(rip := After(cpu.rip));
        status := Halted;
      } else {
        match step(cpu)
        case Exit(s) => status := Dead(s);
        case Next(d) => cpu := d;
      }
    }

    /** The scheduler lets a running process go on for at most `k` instructions. */
    method Advance(k: nat)
      requires status.Going? && !Settles().Pending?
      modifies this
      ensures Settles() == old(Settles()) && !status.Stepping?
    {
      var i := 0;
      while i < k && status.Going?
        invariant Settles() == old(Settles()) && !status.Stepping?
      {
        Tick();
        i := i + 1;
      }
    }

    /** `waitpid`: returns when the process has stopped or ended. */
    method Wait()
      requires !Settles().Pending?
      modifies this
      ensures Settles() == old(Settles())
      ensures match old(Settles())
        case Stopped(c) => status == Halted && cpu == c
        case Exited(s) => status == Dead(s)
    {
      if status.Stepping? {
        if AtTrap(cpu) {
          cpu := cpu.(rip := After(cpu.rip));
          status := Halted;
        } else {
          match step(cpu)
          case Exit(s) => status := Dead(s);
          case Next(d) => cpu, status := d, Halted;
        }
        return;
      }
      ghost var n: nat := 0;
      if status.Going? {
        n :| !Travel(step, Trap(), cpu, n).Pending?;
      }
      while status.Going?
        invariant Settles() == old(Settles()) && !status.Stepping?
        invariant status.Going? ==> !Travel(step, Trap(), cpu, n).Pending?
        decreases status.Going?, n
      {
        Tick();
        if n > 0 { n := n - 1; }
      }
    }

    method PeekText(addr: Word) returns (word: bv64)
      ensures word ==
        if status.Halted? && WordMapped(cpu.mem, addr) then WordAt(cpu.mem, addr) else 0xffff_ffff_ffff_ffff
    {
      word := if status.Halted? && WordMapped(cpu.mem, addr) then WordAt(cpu.mem, addr) else 0xffff_ffff_ffff_ffff;
    }

    method PokeText(addr: Word, word: bv64)
      modifies this`cpu
      ensures cpu == if status.Halted? && WordMapped(old(cpu.mem), addr)
                     then old(cpu).(mem := PutWord(old(cpu.mem), addr, word)) else old(cpu)
    {
      if status.Halted? && WordMapped(cpu.mem, addr) {
        cpu := cpu.(mem := PutWord(cpu.mem, addr, word));
      }
    }

    method GetRegs() returns (rip: Word, regs: map<Register, Word>)
      requires status.Halted?
      ensures rip == cpu.rip && regs == cpu.regs
    {
      rip, regs := cpu.rip, cpu.regs;
    }

    method SetRegs(rip: Word, regs: map<Register, Word>)
      requires status.Halted?
      modifies this`cpu
      ensures cpu == old(cpu).(rip := rip, regs := regs)
    {
      cpu := cpu.(rip := rip, regs := regs);
    }
  }
}
