/**
 What a series of `cont` commands reports, in full: the undebugged program's visits to live
 addresses, of consecutive visits to one address only the first, and then its end.
 */
module Visits {
  import opened MachineWords
  import opened Processor
  import opened Runs
  import opened SessionSpec
  import opened SessionRuns
  import opened Transparency

  /** The addresses in `stops` among those of the first `n + 1` states from `c`, in order. */
  function Seen(step: Cpu -> Outcome, stops: set<Word>, c: Cpu, n: nat): seq<Word>
    decreases n
  {
    (if c.rip in stops then [c.rip] else []) +
    (if n == 0 || step(c).Exit? then [] else Seen(step, stops, step(c).cpu, n - 1))
  }

  /** Every address that differs from the one before it; `last` came before the first. */
  function NoRepeats(addrs: seq<Word>, last: Word): seq<Word> {
    if addrs == [] then []
    else if addrs[0] == last then NoRepeats(addrs[1..], last)
    else [addrs[0]] + NoRepeats(addrs[1..], addrs[0])
  }

  function Hits(addrs: seq<Word>): seq<Report> {
    seq(|addrs|, i requires 0 <= i < |addrs| => Hit(addrs[i]))
  }

  function Conts(k: nat): seq<Command> {
    seq(k, _ => Cont)
  }

  /** `n` instructions from `c` lead to where `w` stands, and the reports of `w` beyond those of
      `v` are exactly what is seen on the way; or they end the program, and that is reported. */
  ghost predicate ReportsAll(step: Cpu -> Outcome, v: View, w: View, n: nat)
    requires v.phase.Running?
  {
    var c, stops := v.phase.clean, Addrs(v.table);
    var hits := Hits(NoRepeats(Seen(step, stops, c, n), v.ripNow));
    match w.phase
    case Running(d) => Replay(step, c, Steps(n)) == Next(d) && w.out == v.out + hits
    case Loaded => exists s :: Replay(step, c, Steps(n)) == Exit(s) && w.out == v.out + hits + [Terminated(s)]
    case NotLoaded => false
  }

  /** A state that is no new stop adds nothing to what is seen. */
  lemma SeenOnward(step: Cpu -> Outcome, stops: set<Word>, last: Word, c: Cpu, n: nat)
    requires c.rip !in stops - {last} && n > 0
    ensures NoRepeats(Seen(step, stops, c, n), last) ==
      if step(c).Exit? then [] else NoRepeats(Seen(step, stops, step(c).cpu, n - 1), last)
  {
    var rest := if step(c).Exit? then [] else Seen(step, stops, step(c).cpu, n - 1);
    if c.rip in stops {
      assert Seen(step, stops, c, n) == [last] + rest;
      assert ([last] + rest)[1..] == rest;
    } else {
      assert Seen(step, stops, c, n) == rest;
    }
  }

  /** The first `k` states from `c` are no new stops, and lead to `d`. */
  predicate Quiet(step: Cpu -> Outcome, stops: set<Word>, last: Word, c: Cpu, k: nat, d: Cpu)
    decreases k
  {
    if k == 0 then c == d
    else c.rip !in stops - {last} && step(c).Next? && Quiet(step, stops, last, step(c).cpu, k - 1, d)
  }

  lemma {:induction false} TravelQuiet(step: Cpu -> Outcome, stops: set<Word>, last: Word, c: Cpu, n: nat, d: Cpu)
    returns (k: nat)
    requires Travel(step, At(stops - {last}), c, n) == Stopped(d)
    ensures Quiet(step, stops, last, c, k, d) && d.rip in stops - {last}
    decreases n
  {
    if c.rip in stops - {last} {
      k := 0;
    } else {
      k := TravelQuiet(step, stops, last, step(c).cpu, n - 1, d);
      k := k + 1;
    }
  }

  lemma {:induction false} QuietReplays(step: Cpu -> Outcome, stops: set<Word>, last: Word, c: Cpu, k: nat, d: Cpu)
    requires Quiet(step, stops, last, c, k, d)
    ensures Replay(step, c, Steps(k)) == Next(d)
    decreases k
  {
    if k > 0 {
      assert Steps(k)[1..] == Steps(k - 1);
      QuietReplays(step, stops, last, step(c).cpu, k - 1, d);
    }
  }

  /** The stop at its end is the next address seen that is not a repeat. */
  lemma {:induction false} SeenToStop(step: Cpu -> Outcome, stops: set<Word>, last: Word, c: Cpu,
                                      k: nat, d: Cpu, m: nat)
    requires Quiet(step, stops, last, c, k, d) && d.rip in stops - {last}
    ensures NoRepeats(Seen(step, stops, c, k + m), last) == [d.rip] + NoRepeats(Seen(step, stops, d, m), d.rip)
    decreases k
  {
    if k > 0 {
      SeenOnward(step, stops, last, c, k + m);
      SeenToStop(step, stops, last, step(c).cpu, k - 1, d, m);
    } else {
      var rest := if m == 0 || step(c).Exit? then [] else Seen(step, stops, step(c).cpu, m - 1);
      assert Seen(step, stops, c, m) == [c.rip] + rest;
      assert ([c.rip] + rest)[1..] == rest;
    }
  }

  /** On a run that skips `last` and ends, nothing but `last` is seen. */
  lemma {:induction false} SeenToEnd(step: Cpu -> Outcome, stops: set<Word>, last: Word, c: Cpu, n: nat, s: int)
    returns (k: nat)
    requires Travel(step, At(stops - {last}), c, n) == Exited(s)
    ensures Replay(step, c, Steps(k)) == Exit(s) && NoRepeats(Seen(step, stops, c, k), last) == []
    decreases n
  {
    if step(c).Exit? {
      k := 1;
    } else {
      k := SeenToEnd(step, stops, last, step(c).cpu, n - 1, s);
      k := k + 1;
      assert Steps(k)[1..] == Steps(k - 1);
    }
    SeenOnward(step, stops, last, c, k);
  }

  /** The remembered address is the reported one, or is not live. */
  predicate NothingForgotten(v: View) {
    v.ripNow == v.bpaddrNow || v.ripNow !in Addrs(v.table)
  }

  lemma {:induction false} EndedConts(step: Cpu -> Outcome, v: View, k: nat)
    requires !v.phase.Running?
    ensures ScriptView(step, v, Conts(k)) == v
    decreases k
  {
    if k > 0 {
      assert Conts(k)[1..] == Conts(k - 1);
      EndedConts(step, v, k - 1);
    }
  }

  lemma HitsJoin(a: Word, rest: seq<Word>)
    ensures Hits([a] + rest) == [Hit(a)] + Hits(rest)
  {
  }

  /** Reports from `d`, a stop reached quietly and announced, continue those from `c`. */
  lemma ReportsJoin(step: Cpu -> Outcome, v: View, w: View, x: View, j: nat, d: Cpu, m: nat)
    requires v.phase.Running? && w == Announce(v, d) && ReportsAll(step, w, x, m)
    requires Quiet(step, Addrs(v.table), v.ripNow, v.phase.clean, j, d) && d.rip in Addrs(v.table) - {v.ripNow}
    ensures ReportsAll(step, v, x, j + m)
  {
    hide Seen, NoRepeats, Quiet, Replay, Steps, Hits;
    var c, stops := v.phase.clean, Addrs(v.table);
    var later := NoRepeats(Seen(step, stops, d, m), d.rip);
    QuietReplays(step, stops, v.ripNow, c, j, d);
    ReplayTwice(step, c, j, m);
    SeenToStop(step, stops, v.ripNow, c, j, d, m);
    HitsJoin(d.rip, later);
    assert v.out + ([Hit(d.rip)] + Hits(later)) == (v.out + [Hit(d.rip)]) + Hits(later);
  }

  /** One `cont` with nothing forgotten goes on to the next new stop, or to the end. */
  lemma ContNext(step: Cpu -> Outcome, v: View) returns (n: nat)
    requires v.phase.Running? && NothingForgotten(v) && ContReturns(step, v)
    ensures var w := ContView(step, v);
      || (&& w.phase.Running? && w == Announce(v, w.phase.clean)
          && w.phase.clean.rip in Addrs(v.table) - {v.ripNow}
          && Quiet(step, Addrs(v.table), v.ripNow, v.phase.clean, n, w.phase.clean))
      || (w.phase == Loaded && ReportsAll(step, v, w, n))
  {
    var c, stops, w := v.phase.clean, Addrs(v.table), ContView(step, v);
    GoesPast(step, stops, v.ripNow, c);
    GoesStops(step, At(stops), c);
    ContExact(step, v);
    var t: nat :| !Travel(step, At(stops - {v.ripNow}), c, t).Pending?;
    GoesWithin(step, At(stops - {v.ripNow}), c, t);
    match NextStop(step, v)
    case Exited(s) =>
      n := SeenToEnd(step, stops, v.ripNow, c, t, s);
      assert w.out == v.out + Hits([]) + [Terminated(s)];
    case Stopped(d) =>
      n := TravelQuiet(step, stops, v.ripNow, c, t, d);
  }

  /** After any number of `cont` commands the reports are complete and exact: all that the program
      saw of live addresses on its way, repeats dropped, and its end if it came to it.  (Standing
      at an unreported breakpoint, at least one `cont` is needed to report that one.) */
  lemma {:induction false} ContsReportAll(p: Program, v: View, k: nat) returns (n: nat)
    requires v.phase.Running? && NothingForgotten(v) && ScriptIssuable(p, v, Conts(k))
    requires k > 0 || v.phase.clean.rip !in Addrs(v.table) - {v.ripNow}
    ensures ReportsAll(p.step, v, ScriptView(p.step, v, Conts(k)), n)
    decreases k
  {
    hide ContView, Quiet;
    if k == 0 {
      n := 0;
      assert NoRepeats(Seen(p.step, Addrs(v.table), v.phase.clean, 0), v.ripNow) == [];
      return;
    }
    var w := ContView(p.step, v);
    assert Conts(k)[1..] == Conts(k - 1);
    n := ContNext(p.step, v);
    if w.phase.Loaded? {
      EndedConts(p.step, w, k - 1);
    } else {
      var m := ContsReportAll(p, w, k - 1);
      ReportsJoin(p.step, v, w, ScriptView(p.step, w, Conts(k - 1)), n, w.phase.clean, m);
      n := n + m;
    }
  }
}
