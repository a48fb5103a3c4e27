/**
 Runs of a processor up to a stopping condition, and the simulation between the patched
 processor (stopping at `int3`) and the undisturbed program (stopping at armed addresses).
 */
module Runs {
  import opened MachineWords
  import opened Processor

  datatype Arrival = Stopped(cpu: Cpu) | Exited(status: int) | Pending(cpu: Cpu)

  /** At most `n` steps from `c`, stopping as soon as `halt` holds. */
  function Travel(step: Cpu -> Outcome, halt: Cpu -> bool, c: Cpu, n: nat): Arrival
    decreases n
  {
    if halt(c) then Stopped(c)
    else if n == 0 then Pending(c)
    else match step(c)
      case Exit(s) => Exited(s)
      case Next(d) => Travel(step, halt, d, n - 1)
  }

  /** Where the run from `c` ends up, however long it takes; `Pending(c)` if it never stops. */
  ghost function Goes(step: Cpu -> Outcome, halt: Cpu -> bool, c: Cpu): Arrival {
    if exists n: nat :: !Travel(step, halt, c, n).Pending? then
      var n: nat :| !Travel(step, halt, c, n).Pending?;
      Travel(step, halt, c, n)
    else Pending(c)
  }

  lemma {:induction false} TravelStable(step: Cpu -> Outcome, halt: Cpu -> bool, c: Cpu, m: nat, n: nat)
    requires m <= n && !Travel(step, halt, c, m).Pending?
    ensures Travel(step, halt, c, n) == Travel(step, halt, c, m)
    decreases n
  {
    if !halt(c) && m > 0 && step(c).Next? {
      TravelStable(step, halt, step(c).cpu, m - 1, n - 1);
    }
  }

  /** Any number of steps that suffices gives the destination. */
  lemma GoesWithin(step: Cpu -> Outcome, halt: Cpu -> bool, c: Cpu, n: nat)
    requires !Travel(step, halt, c, n).Pending?
    ensures Goes(step, halt, c) == Travel(step, halt, c, n)
  {
    var m: nat :| !Travel(step, halt, c, m).Pending? && Goes(step, halt, c) == Travel(step, halt, c, m);
    if m <= n { TravelStable(step, halt, c, m, n); } else { TravelStable(step, halt, c, n, m); }
  }

  /** The destination is found one step at a time. */
  lemma GoesUnfold(step: Cpu -> Outcome, halt: Cpu -> bool, c: Cpu)
    ensures halt(c) ==> Goes(step, halt, c) == Stopped(c)
    ensures !halt(c) && step(c).Exit? ==> Goes(step, halt, c) == Exited(step(c).status)
    ensures !halt(c) && step(c).Next? ==>
      var d := Goes(step, halt, step(c).cpu);
      Goes(step, halt, c) == if d.Pending? then Pending(c) else d
  {
    if halt(c) {
      GoesWithin(step, halt, c, 0);
    } else if step(c).Exit? {
      GoesWithin(step, halt, c, 1);
    } else {
      var d := step(c).cpu;
      if n: nat :| !Travel(step, halt, d, n).Pending? {
        assert Travel(step, halt, c, n + 1) == Travel(step, halt, d, n);
        GoesWithin(step, halt, d, n);
        GoesWithin(step, halt, c, n + 1);
      } else {
        forall n: nat ensures Travel(step, halt, c, n).Pending? {
          if n > 0 { assert Travel(step, halt, d, n - 1).Pending?; }
        }
      }
    }
  }

  /** Letting the machine run a while does not change where it is going. */
  lemma {:induction false} GoesThrough(step: Cpu -> Outcome, halt: Cpu -> bool, c: Cpu, n: nat)
    requires Travel(step, halt, c, n).Pending? && !Goes(step, halt, c).Pending?
    ensures Goes(step, halt, Travel(step, halt, c, n).cpu) == Goes(step, halt, c)
    decreases n
  {
    GoesUnfold(step, halt, c);
    if n > 0 { GoesThrough(step, halt, step(c).cpu, n - 1); }
  }

  lemma {:induction false} TravelStops(step: Cpu -> Outcome, halt: Cpu -> bool, c: Cpu, n: nat)
    ensures match Travel(step, halt, c, n)
      case Stopped(d) => halt(d)
      case Pending(d) => !halt(d)
      case Exited(_) => true
    decreases n
  {
    if !halt(c) && n > 0 && step(c).Next? { TravelStops(step, halt, step(c).cpu, n - 1); }
  }

  /** A run that stops does so in a state satisfying the stopping condition. */
  lemma GoesStops(step: Cpu -> Outcome, halt: Cpu -> bool, c: Cpu)
    ensures Goes(step, halt, c).Stopped? ==> halt(Goes(step, halt, c).cpu)
  {
    if n: nat :| !Travel(step, halt, c, n).Pending? {
      GoesWithin(step, halt, c, n);
      TravelStops(step, halt, c, n);
    }
  }

  // ---------- Stopping at a set of addresses ----------

  function At(stops: set<Word>): Cpu -> bool {
    (c: Cpu) => c.rip in stops
  }

  function Trap(): Cpu -> bool {
    (c: Cpu) => AtTrap(c)
  }

  function PatchArrival(a: Arrival, armed: set<Word>): Arrival {
    match a
    case Stopped(c) => Stopped(Patch(c, armed))
    case Exited(s) => Exited(s)
    case Pending(c) => Pending(Patch(c, armed))
  }

  /** A patched good state traps exactly when its `rip` is armed. */
  lemma TrapsWhereArmed(p: Program, c: Cpu, armed: set<Word>)
    requires Debuggable(p) && c in p.good && armed <= p.sites
    ensures AtTrap(Patch(c, armed)) <==> c.rip in armed
  {
  }

  lemma {:induction false} TravelPatched(p: Program, c: Cpu, armed: set<Word>, n: nat)
    requires Debuggable(p) && c in p.good && armed <= p.sites
    ensures Travel(p.step, Trap(), Patch(c, armed), n) == PatchArrival(Travel(p.step, At(armed), c, n), armed)
    decreases n
  {
    TrapsWhereArmed(p, c, armed);
    if c.rip !in armed && n > 0 {
      assert p.step(Patch(c, armed)) == PatchOutcome(p.step(c), armed);
      if p.step(c).Next? { TravelPatched(p, p.step(c).cpu, armed, n - 1); }
    }
  }

  /** Simulation: the patched processor runs to its next `int3` exactly as the undisturbed
      program runs to its next armed address. */
  lemma GoesPatched(p: Program, c: Cpu, armed: set<Word>)
    requires Debuggable(p) && c in p.good && armed <= p.sites
    ensures Goes(p.step, Trap(), Patch(c, armed)) == PatchArrival(Goes(p.step, At(armed), c), armed)
  {
    if n: nat :| !Travel(p.step, At(armed), c, n).Pending? {
      TravelPatched(p, c, armed, n);
      GoesWithin(p.step, At(armed), c, n);
      GoesWithin(p.step, Trap(), Patch(c, armed), n);
    } else {
      forall n: nat ensures Travel(p.step, Trap(), Patch(c, armed), n).Pending? {
        TravelPatched(p, c, armed, n);
      }
    }
  }

  lemma {:induction false} TravelStaysGood(p: Program, halt: Cpu -> bool, c: Cpu, n: nat)
    requires Debuggable(p) && c in p.good
    ensures var a := Travel(p.step, halt, c, n); !a.Exited? ==> a.cpu in p.good && SameSites(p, c, a.cpu)
    decreases n
  {
    if !halt(c) && n > 0 && p.step(c).Next? {
      var d := p.step(c).cpu;
      assert SameSites(p, c, d) && SitesMapped(p, d);
      TravelStaysGood(p, halt, d, n - 1);
    }
  }

  lemma GoesStaysGood(p: Program, halt: Cpu -> bool, c: Cpu)
    requires Debuggable(p) && c in p.good
    ensures var a := Goes(p.step, halt, c); !a.Exited? ==> a.cpu in p.good && SameSites(p, c, a.cpu)
  {
    if n: nat :| !Travel(p.step, halt, c, n).Pending? {
      GoesWithin(p.step, halt, c, n);
      TravelStaysGood(p, halt, c, n);
    }
  }

  lemma {:induction false} TravelSooner(step: Cpu -> Outcome, stops: set<Word>, a: Word, c: Cpu, n: nat)
    requires !Travel(step, At(stops - {a}), c, n).Pending?
    ensures !Travel(step, At(stops), c, n).Pending?
    decreases n
  {
    if c.rip !in stops && n > 0 && step(c).Next? { TravelSooner(step, stops, a, step(c).cpu, n - 1); }
  }

  /** A run that stops at fewer addresses stops at more. */
  lemma GoesSooner(step: Cpu -> Outcome, stops: set<Word>, a: Word, c: Cpu)
    requires !Goes(step, At(stops - {a}), c).Pending?
    ensures !Goes(step, At(stops), c).Pending?
  {
    var n: nat :| !Travel(step, At(stops - {a}), c, n).Pending?;
    TravelSooner(step, stops, a, c, n);
    GoesWithin(step, At(stops), c, n);
  }

  lemma {:induction false} TravelPast(step: Cpu -> Outcome, stops: set<Word>, a: Word, c: Cpu, n: nat)
    requires !Travel(step, At(stops), c, n).Pending?
    ensures var first := Travel(step, At(stops), c, n);
      Goes(step, At(stops - {a}), c) ==
        if first.Stopped? && first.cpu.rip == a then
          var d := Goes(step, At(stops - {a}), first.cpu);
          if d.Pending? then Pending(c) else d
        else first
    decreases n
  {
    GoesUnfold(step, At(stops - {a}), c);
    if c.rip !in stops && n > 0 && step(c).Next? { TravelPast(step, stops, a, step(c).cpu, n - 1); }
  }

  /** Dropping one address from the stopping set: the run is the same up to the first stop,
      and continues from there only if it stopped at the dropped address. */
  lemma GoesPast(step: Cpu -> Outcome, stops: set<Word>, a: Word, c: Cpu)
    requires !Goes(step, At(stops), c).Pending?
    ensures var first := Goes(step, At(stops), c);
      Goes(step, At(stops - {a}), c) ==
        if first.Stopped? && first.cpu.rip == a then
          var d := Goes(step, At(stops - {a}), first.cpu);
          if d.Pending? then Pending(c) else d
        else first
  {
    var n: nat :| !Travel(step, At(stops), c, n).Pending?;
    GoesWithin(step, At(stops), c, n);
    TravelPast(step, stops, a, c, n);
  }
}
