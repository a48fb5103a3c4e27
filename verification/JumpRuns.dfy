/** Whole runs that use `setjmp` and `longjmp`: many environments at once, and the jmp2 program. */
module JumpRuns {
  import opened MachineWords
  import opened WordMemory
  import opened SignalWords
  import opened NonLocalJump
  import opened SignalSets

  // ---------- Nested environments, any sequence of calls and jumps ----------

  /** Environments from the outermost call of `setjmp` to the innermost: each buffer `js[i]` holds
      `es[i]` and lies apart from its own stack window and those of the calls inside it.  An inner
      buffer may well lie in an outer window, where the stack has been reused. */
  predicate Nested(mem: Memory, js: seq<Word>, es: seq<Env>) {
    && |js| == |es|
    && (forall i | 0 <= i < |js| :: js[i] + JMP_BUF_SIZE < LIMIT && Holds(mem, js[i], es[i]))
    && (forall k | 0 <= k < |es| :: es[k].rsp + 8 < LIMIT && Window(mem, es[k].rsp) && es[k].mask !! UNBLOCKABLE)
    && (forall i, k | 0 <= i <= k < |es| :: Apart(js[i], es[k].rsp))
  }

  function LandingOf(e: Env, v: Word): Landing {
    Landing(e.ret, e.rsp + 8, v, e.rbx, e.rbp, e.r12, e.r13, e.r14, e.r15, e.mask)
  }

  method Observe(m: Machine) returns (l: Landing)
    ensures l == m.Observed()
  {
    l := m.Observed();
  }

  lemma NestedPrefix(mem: Memory, js: seq<Word>, es: seq<Env>, n: nat)
    requires Nested(mem, js, es) && n <= |es|
    ensures |js| == |es| && Nested(mem, js[..n], es[..n])
  {
    hide Holds, Window;
  }

  /** A jump to environment `k` writes only its own window, so it and all outer ones survive. */
  lemma OuterHeld(mem: Memory, now: Memory, js: seq<Word>, es: seq<Env>, k: nat)
    requires Nested(mem, js, es) && k < |es| && SameOutside(mem, now, es[k].rsp - 32, es[k].rsp + 8)
    ensures Nested(now, js[..k + 1], es[..k + 1])
  {
    hide Load, MaskWord, Words;
    var ks, fs := js[..k + 1], es[..k + 1];
    forall i | 0 <= i <= k ensures Holds(now, ks[i], fs[i]) {
      assert Apart(js[i], es[k].rsp);
      WordsOutside(mem, now, es[k].rsp - 32, es[k].rsp + 8, js[i], Saved(es[i]) + [MaskWord(es[i].mask)]);
    }
    forall i | 0 <= i <= k ensures Window(now, fs[i].rsp) {
      MappedSame(mem, now, es[k].rsp - 32, es[k].rsp + 8, es[i].rsp - 32, 40);
    }
  }

  /** A new buffer at `jb` and a return slot at `sp`, clear of the buffers already in use. */
  predicate ClearOf(js: seq<Word>, jb: Word, sp: Word) {
    forall i | 0 <= i < |js| :: (jb + JMP_BUF_SIZE <= js[i] || js[i] + JMP_BUF_SIZE <= jb) && Apart(js[i], sp)
  }

  /** A call of `setjmp` there adds its environment and keeps those around it. */
  lemma InnerAdded(mem: Memory, now: Memory, js: seq<Word>, es: seq<Env>, jb: Word, e: Env)
    requires Nested(mem, js, es) && ClearOf(js, jb, e.rsp)
    requires SameOutsideBoth(mem, now, e.rsp - 32, e.rsp, jb, jb + JMP_BUF_SIZE)
    requires Holds(now, jb, e) && jb + JMP_BUF_SIZE < LIMIT && Apart(jb, e.rsp)
    requires e.rsp + 8 < LIMIT && Window(now, e.rsp) && e.mask !! UNBLOCKABLE
    ensures Nested(now, js + [jb], es + [e])
  {
    hide Load, MaskWord, Words;
    var ks, fs := js + [jb], es + [e];
    forall i | 0 <= i < |fs| ensures Holds(now, ks[i], fs[i]) && Window(now, fs[i].rsp) {
      if i < |js| {
        assert Apart(js[i], e.rsp);
        WordsKept(mem, now, e.rsp - 32, e.rsp, jb, jb + JMP_BUF_SIZE, js[i], Saved(es[i]) + [MaskWord(es[i].mask)]);
      }
    }
    assert forall i | 0 <= i < |js| :: ks[i] == js[i] && fs[i] == es[i];
  }

  /** Code that may do anything to registers, mask and memory but damage the buffers; the kernel
      does not let it block KILL or STOP. */
  method Meddle(m: Machine, js: seq<Word>, es: seq<Env>)
    requires Nested(m.mem, js, es)
    modifies m
    ensures Nested(m.mem, js, es) && m.mem.Keys == old(m.mem).Keys && m.mask !! UNBLOCKABLE
    ensures m.landings == old(m.landings)
  {
    hide Nested;
    var mem: Memory := *;
    if mem.Keys == m.mem.Keys && Nested(mem, js, es) { m.mem := mem; }
    m.rax, m.rbx, m.rcx, m.rdx := *, *, *, *;
    m.rsi, m.rdi, m.rbp, m.rsp := *, *, *, *;
    m.r10, m.r11, m.r12, m.r13 := *, *, *, *;
    m.r14, m.r15, m.rip := *, *, *;
    m.mask := *;
    if !(m.mask !! UNBLOCKABLE) { m.mask := {}; }
  }

  /** `setjmp(jb)` called with its return address at `sp`. */
  method Enter(m: Machine, js: seq<Word>, es: seq<Env>, jb: Word, sp: Word) returns (e: Env, l: Landing)
    requires Nested(m.mem, js, es) && ClearOf(js, jb, sp) && m.mask !! UNBLOCKABLE
    requires Mapped(m.mem, jb, JMP_BUF_SIZE) && jb + JMP_BUF_SIZE < LIMIT && Apart(jb, sp)
    requires Window(m.mem, sp) && sp + 8 < LIMIT
    modifies m
    ensures Nested(m.mem, js + [jb], es + [e]) && m.mem.Keys == old(m.mem).Keys && l == LandingOf(e, 0)
    ensures m.landings == old(m.landings) + [l]
  {
    hide Load, MaskWord, Words, Nested, ClearOf;
    m.rdi, m.rsp := jb, sp;
    e := m.Here();
    ghost var before := m.mem;
    m.Setjmp();
    assert Window(m.mem, sp);
    InnerAdded(before, m.mem, js, es, jb, e);
    l := Observe(m);
  }

  /** `longjmp` to environment `k` with value `v`. */
  method JumpTo(m: Machine, js: seq<Word>, es: seq<Env>, k: nat, v: Word) returns (l: Landing)
    requires Nested(m.mem, js, es) && k < |es|
    modifies m
    ensures Nested(m.mem, js[..k + 1], es[..k + 1]) && m.mem.Keys == old(m.mem).Keys && l == LandingOf(es[k], v)
    ensures m.landings == old(m.landings) + [l]
  {
    hide Load, MaskWord, Words;
    m.rdi, m.rsi := js[k], v;
    ghost var before := m.mem;
    m.Longjmp(es[k]);
    OuterHeld(before, m.mem, js, es, k);
    assert es[k].mask - UNBLOCKABLE == es[k].mask;
    l := Observe(m);
  }

  /** What the program does next: call `setjmp` in a frame further in, jump to one of the
      environments, or return from the function that holds the innermost one. */
  datatype Action = Call(jb: Word, sp: Word) | Jump(k: nat, v: Word) | Return

  /** Every buffer and frame used is mapped and clear of the buffers in use at the time, and only
      environments still in use are jumped to. */
  predicate Legal(mem: Memory, js: seq<Word>, acts: seq<Action>)
    decreases |acts|
  {
    acts == [] || match acts[0]
      case Call(jb, sp) =>
        && Mapped(mem, jb, JMP_BUF_SIZE) && jb + JMP_BUF_SIZE < LIMIT && Apart(jb, sp)
        && Window(mem, sp) && sp + 8 < LIMIT && ClearOf(js, jb, sp) && Legal(mem, js + [jb], acts[1..])
      case Jump(k, _) => k < |js| && Legal(mem, js[..k + 1], acts[1..])
      case Return => js != [] && Legal(mem, js[..|js| - 1], acts[1..])
  }

  /** Each call of `setjmp` returns 0, and each jump lands exactly as the call it goes back to did,
      but for the value; `open` are the landings of the calls still in use. */
  predicate LandsRight(open: seq<Landing>, acts: seq<Action>, landings: seq<Landing>)
    decreases |acts|
  {
    if acts == [] then landings == []
    else match acts[0]
      case Call(_, _) =>
        landings != [] && landings[0].rax == 0 && LandsRight(open + [landings[0]], acts[1..], landings[1..])
      case Jump(k, v) =>
        && landings != [] && k < |open| && landings[0] == open[k].(rax := v)
        && LandsRight(open[..k + 1], acts[1..], landings[1..])
      case Return => open != [] && LandsRight(open[..|open| - 1], acts[1..], landings)
  }

  /** The landings of the calls that made the environments in use. */
  function FirstLandings(es: seq<Env>): seq<Landing> {
    seq(|es|, i requires 0 <= i < |es| => LandingOf(es[i], 0))
  }

  lemma LegalSame(mem: Memory, now: Memory, js: seq<Word>, acts: seq<Action>)
    requires Legal(mem, js, acts) && now.Keys == mem.Keys
    ensures Legal(now, js, acts)
    decreases |acts|
  {
  }

  /** However deep the calls of `setjmp` go, in whatever order their environments are jumped to,
      and whatever code runs in between, every jump lands as the matching call returned. */
  method RunActions(m: Machine, js: seq<Word>, es: seq<Env>, acts: seq<Action>) returns (landings: seq<Landing>)
    requires Nested(m.mem, js, es) && Legal(m.mem, js, acts)
    modifies m
    ensures LandsRight(FirstLandings(es), acts, landings) && m.landings == old(m.landings) + landings
    decreases |acts|
  {
    hide Holds, Window, Mapped, Apart, ClearOf, Nested;
    NestedPrefix(m.mem, js, es, 0);
    landings := [];
    if acts == [] { return; }
    Meddle(m, js, es);
    var rest: seq<Landing>;
    match acts[0] {
      case Call(jb, sp) =>
        LegalSame(old(m.mem), m.mem, js, acts);
        var e, l := Enter(m, js, es, jb, sp);
        LegalSame(old(m.mem), m.mem, js + [jb], acts[1..]);
        assert FirstLandings(es + [e]) == FirstLandings(es) + [l];
        rest := RunActions(m, js + [jb], es + [e], acts[1..]);
        landings := [l] + rest;
      case Jump(k, v) =>
        var l := JumpTo(m, js, es, k, v);
        LegalSame(old(m.mem), m.mem, js[..k + 1], acts[1..]);
        assert FirstLandings(es[..k + 1]) == FirstLandings(es)[..k + 1];
        rest := RunActions(m, js[..k + 1], es[..k + 1], acts[1..]);
        landings := [l] + rest;
      case Return =>
        var n := |es| - 1;
        NestedPrefix(m.mem, js, es, n);
        LegalSame(old(m.mem), m.mem, js[..n], acts[1..]);
        assert FirstLandings(es[..n]) == FirstLandings(es)[..n];
        landings := RunActions(m, js[..n], es[..n], acts[1..]);
    }
    assert acts[0].Return? || landings[1..] == rest;
  }

  // ---------- jmp2, for any number of functions ----------

  /** The library's `sigprocmask` with both sets given: the new set is copied, the kernel changes
      the mask by it, and the old mask is stored. */
  method SigProcMask(m: Machine, how: Word, given: array<Byte>, oldset: array<Byte>)
    requires given.Length == oldset.Length == 8 && how <= SIG_SETMASK
    modifies m`mask, oldset
    ensures m.mask == Masked(how, old(m.mask), old(Stored(given[..]))) && Stored(oldset[..]) == old(m.mask)
    ensures given != oldset ==> given[..] == old(given[..])
  {
    hide FromBytes, Decode, Encode, MaskWord;
    var tmpset := new Byte[8](_ => 0);
    Memcpy(tmpset, given, 8);
    assert tmpset[..] == old(given[..]);
    var was := m.mask;
    m.mask := Masked(how, m.mask, Stored(tmpset[..]));
    PutWordIn(oldset, MaskWord(was));
    MaskRoundTrip(was);
  }

  /** `sigemptyset(&s); sigaddset(&s, SIGALRM); sigprocmask(how, &s, &os);` */
  method MaskAlarm(m: Machine, how: Word, sets: Sets, s: array<Byte>, os: array<Byte>)
    requires s.Length == os.Length == 8 && how <= SIG_SETMASK
    modifies m`mask, sets, s, os
    ensures m.mask == Masked(how, old(m.mask), {SIGALRM})
    ensures Stored(os[..]) == old(m.mask) && (s != os ==> Stored(s[..]) == {SIGALRM})
  {
    hide FromBytes, Decode, Stored;
    var _ := sets.SigEmptySet(s);
    var _ := sets.SigAddSet(s, SIGALRM);
    assert sets.Of(s) == {SIGALRM};
    SigProcMask(m, how, s, os);
  }

  const SIGALRM := 14

  datatype Line = WasBlocked | WasNotBlocked | Called(fun: nat)

  /** The output expected of a run with `n` functions, from pass `k` on. */
  function Transcript(k: nat, n: nat): seq<Line>
    requires k <= n
    decreases n - k
  {
    if k == n then [WasBlocked] else [WasBlocked, Called(k)] + Transcript(k + 1, n)
  }

  lemma {:induction false} TranscriptShape(k: nat, n: nat)
    requires k <= n
    ensures var t := Transcript(k, n);
      && |t| == 2 * (n - k) + 1
      && (forall p | 0 <= p <= n - k :: t[2 * p] == WasBlocked)
      && (forall p | 0 <= p < n - k :: t[2 * p + 1] == Called(k + p))
    decreases n - k
  {
    if k < n {
      TranscriptShape(k + 1, n);
      var t, rest := Transcript(k, n), Transcript(k + 1, n);
      forall p | 0 <= p <= n - k ensures t[2 * p] == WasBlocked {
        if p > 0 { assert t[2 * p] == rest[2 * (p - 1)]; }
      }
      forall p | 0 <= p < n - k ensures t[2 * p + 1] == Called(k + p) {
        if p > 0 { assert t[2 * p + 1] == rest[2 * (p - 1) + 1]; }
      }
    }
  }

  /** Nothing at or above `frame` changes. */
  predicate KeepsFrame(mem: Memory, now: Memory, frame: int) {
    now.Keys == mem.Keys && forall a | a in mem && a >= frame :: now[a] == mem[a]
  }

  /** The body of a called function up to its `longjmp`: any registers, any mask, and any memory
      below the caller's frame except the buffer. */
  method FunctionBody(m: Machine, jb: Word, e: Env, frame: int)
    requires Holds(m.mem, jb, e)
    modifies m
    ensures Holds(m.mem, jb, e) && KeepsFrame(old(m.mem), m.mem, frame) && m.landings == old(m.landings)
  {
    hide Holds;
    var mem: Memory := *;
    if Holds(mem, jb, e) && KeepsFrame(m.mem, mem, frame) { m.mem := mem; }
    m.rax, m.rbx, m.rcx, m.rdx := *, *, *, *;
    m.rsi, m.rdi, m.rbp, m.rsp := *, *, *, *;
    m.r10, m.r11, m.r12, m.r13 := *, *, *, *;
    m.r14, m.r15, m.rip := *, *, *;
    m.mask := *;
  }

  lemma FrameLoad(mem: Memory, now: Memory, frame: int, a: int)
    requires KeepsFrame(mem, now, frame) && Mapped(mem, a, 8) && a >= frame
    ensures Mapped(now, a, 8) && Load(now, a) == Load(mem, a)
  {
    assert SameOutside(mem, now, 0, frame);
    LoadOutside(mem, now, 0, frame, a);
  }

  /** The caller's invariant between passes: it is back where `setjmp` returned, on its own frame,
      with the buffer good for another jump and its counter `i` (at `ia`) intact. */
  ghost predicate AtReturn(m: Machine, jb: Word, ia: int, e: Env, i: nat)
    reads m
  {
    && Holds(m.mem, jb, e) && Window(m.mem, e.rsp)
    && m.rip == e.ret && m.rsp == e.rsp + 8 && m.mask == e.mask
    && Mapped(m.mem, ia, 8) && Load(m.mem, ia) == i
  }

  /** `i++` after a return from `setjmp` with a non-zero value. */
  method CountUp(m: Machine, jb: Word, ia: Word, ghost e: Env, ghost i: nat)
    requires AtReturn(m, jb, ia, e, i) && i + 1 < LIMIT
    requires e.rsp + 8 <= ia && (ia + 8 <= jb || jb + JMP_BUF_SIZE <= ia)
    modifies m`mem
    ensures AtReturn(m, jb, ia, e, i + 1)
  {
    hide Load, Store, Words, MaskWord, SameOutside;
    ghost var was := m.mem;
    m.MovTo(ia, Load(m.mem, ia) + 1);
    WordsOutside(was, m.mem, ia, ia + 8, jb, Saved(e) + [MaskWord(e.mask)]);
    MappedSame(was, m.mem, ia, ia + 8, e.rsp - 32, 40);
    MappedSame(was, m.mem, ia, ia + 8, ia, 8);
  }

  /** `funs[i]()`: its body, and the jump back with `i + 1`. */
  method CallFunction(m: Machine, jb: Word, ia: Word, e: Env, i: Word)
    requires Holds(m.mem, jb, e) && Window(m.mem, e.rsp) && Mapped(m.mem, ia, 8) && Load(m.mem, ia) == i
    requires Apart(jb, e.rsp) && jb + JMP_BUF_SIZE < LIMIT && e.rsp + 8 < LIMIT && e.rsp + 8 <= ia
    requires e.mask !! UNBLOCKABLE && i + 1 < LIMIT
    modifies m
    ensures AtReturn(m, jb, ia, e, i) && m.landings == old(m.landings) + [LandingOf(e, i + 1)]
    ensures m.rax == i + 1
  {
    hide Load, Words, MaskWord, SameOutside;
    ghost var m0 := m.mem;
    FunctionBody(m, jb, e, e.rsp + 8);
    FrameLoad(m0, m.mem, e.rsp + 8, ia);
    ghost var m1 := m.mem;
    m.rdi, m.rsi := jb, i + 1;
    m.Longjmp(e);
    LoadOutside(m1, m.mem, e.rsp - 32, e.rsp + 8, ia);
    MappedSame(m1, m.mem, e.rsp - 32, e.rsp + 8, e.rsp - 32, 40);
  }

  /** Room below the caller's frame for the call of `setjmp`, clear of the buffer; the counter is
      in the caller's frame, and not in the buffer. */
  predicate Laid(m: Machine, jb: Word, ia: Word)
    reads m
  {
    && 40 <= m.rsp < LIMIT - 8 && Mapped(m.mem, m.rsp - 40, 40)
    && Mapped(m.mem, jb, JMP_BUF_SIZE) && jb + JMP_BUF_SIZE < LIMIT && Apart(jb, m.rsp - 8)
    && Mapped(m.mem, ia, 8) && m.rsp <= ia && (ia + 8 <= jb || jb + JMP_BUF_SIZE <= ia)
  }

  /** The first call of `setjmp`, from a caller whose frame starts at `rsp`. */
  method FirstReturn(m: Machine, jb: Word, ia: Word) returns (e: Env)
    requires Laid(m, jb, ia) && Load(m.mem, ia) == 0
    modifies m
    ensures AtReturn(m, jb, ia, e, 0) && m.rax == 0
    ensures e.rsp == old(m.rsp) - 8 && e.mask == old(m.mask) && m.landings == old(m.landings) + [LandingOf(e, 0)]
  {
    hide Load, Store, Words, MaskWord;
    var returnAddress: Word := *;
    ghost var m0, sp := m.mem, m.rsp - 8;
    m.Push(returnAddress);
    ghost var m1 := m.mem;
    LoadOutside(m0, m1, sp, sp + 8, ia);
    m.rdi := jb;
    e := m.Here();
    m.Setjmp();
    LoadOutsideBoth(m1, m.mem, sp - 32, sp, jb, jb + JMP_BUF_SIZE, ia);
  }

  /** Lines 27-33: SIGALRM is blocked, `i` is zero, and `setjmp` is called. */
  method Prologue(m: Machine, jb: Word, ia: Word, sets: Sets, s: array<Byte>, os: array<Byte>) returns (e: Env)
    requires Laid(m, jb, ia) && s.Length == os.Length == 8
    modifies m, sets, s, os
    ensures AtReturn(m, jb, ia, e, 0) && m.rax == 0
    ensures e.rsp == old(m.rsp) - 8 && e.mask == old(m.mask) + {SIGALRM}
    ensures m.landings == old(m.landings) + [LandingOf(e, 0)]
  {
    hide Load, Store, Words, MaskWord, SameOutside;
    MaskAlarm(m, SIG_BLOCK, sets, s, os);
    ghost var m0 := m.mem;
    m.MovTo(ia, 0);
    MappedSame(m0, m.mem, ia, ia + 8, m.rsp - 40, 40);
    MappedSame(m0, m.mem, ia, ia + 8, jb, JMP_BUF_SIZE);
    MappedSame(m0, m.mem, ia, ia + 8, ia, 8);
    e := FirstReturn(m, jb, ia);
  }

  /** One pass over the code behind `setjmp`: `k` is the counter after a possible `i++`. */
  method Pass(m: Machine, n: nat, jb: Word, ia: Word, sets: Sets, s: array<Byte>, os: array<Byte>, e: Env, ghost k: nat)
    returns (lines: seq<Line>, done: bool)
    requires k <= n < LIMIT - 1 && s != os && s.Length == os.Length == 8
    requires (m.rax != 0 ==> k > 0) && AtReturn(m, jb, ia, e, if m.rax == 0 then k else k - 1)
    requires Apart(jb, e.rsp) && jb + JMP_BUF_SIZE < LIMIT && e.rsp + 8 < LIMIT
    requires e.rsp + 8 <= ia && (ia + 8 <= jb || jb + JMP_BUF_SIZE <= ia) && e.mask !! UNBLOCKABLE
    modifies m, sets, s, os
    ensures done <==> k == n
    ensures !done ==> AtReturn(m, jb, ia, e, k) && m.rax == k + 1
    ensures lines == [if SIGALRM in e.mask then WasBlocked else WasNotBlocked] + if done then [] else [Called(k)]
    ensures done ==> m.mask == e.mask - {SIGALRM} && m.rsp == e.rsp + 8 && m.landings == old(m.landings)
    ensures done ==> Mapped(m.mem, ia, 8) && Load(m.mem, ia) == k
    ensures done ==> Stored(s[..]) == {SIGALRM} && Stored(os[..]) == e.mask
    ensures !done ==> m.landings == old(m.landings) + [LandingOf(e, k + 1)]
  {
    hide Load, Words, MaskWord, SameOutside, Stored;
    if m.rax != 0 { CountUp(m, jb, ia, e, k - 1); }
    MaskAlarm(m, SIG_UNBLOCK, sets, s, os);
    var blocked := sets.SigIsMember(os, SIGALRM);
    lines := [if blocked != 0 then WasBlocked else WasNotBlocked];
    var i := Load(m.mem, ia);
    assert i == k;
    if i < n {
      lines := lines + [Called(i)];
      CallFunction(m, jb, ia, e, i);
    }
    done := i >= n;
  }

  /** `setjmp` has returned `k + 1` times more, with 0 to `k`, and otherwise always as for `e`. */
  ghost predicate Returned(before: seq<Landing>, now: seq<Landing>, e: Env, k: nat) {
    && |now| == |before| + k + 1 && now[..|before|] == before
    && forall i: Word | i <= k :: now[|before| + i] == LandingOf(e, i)
  }

  lemma ReturnedOnce(before: seq<Landing>, e: Env)
    ensures Returned(before, before + [LandingOf(e, 0)], e, 0)
  {
  }

  lemma ReturnedAgain(before: seq<Landing>, now: seq<Landing>, e: Env, k: nat)
    requires Returned(before, now, e, k) && k + 1 < LIMIT
    ensures Returned(before, now + [LandingOf(e, k + 1)], e, k + 1)
  {
    var all := now + [LandingOf(e, k + 1)];
    assert all[..|before|] == now[..|before|];
    forall i: Word | i <= k + 1 ensures all[|before| + i] == LandingOf(e, i) {
      if i <= k { assert all[|before| + i] == now[|before| + i]; }
    }
  }

  lemma ReturnedAlike(before: seq<Landing>, now: seq<Landing>, e: Env, k: nat)
    requires Returned(before, now, e, k)
    ensures |now| == |before| + k + 1 && now[..|before|] == before && now[|before|] == LandingOf(e, 0)
    ensures forall i: Word | i <= k :: now[|before| + i] == now[|before|].(rax := i)
  {
    assert now[|before| + 0] == LandingOf(e, 0);
    forall i: Word | i <= k ensures now[|before| + i] == now[|before|].(rax := i) {
      assert now[|before| + i] == LandingOf(e, i);
    }
  }

  /** The whole program, for any `n` functions, any code in them, and any initial mask: it ends;
      every function is called once, in order; SIGALRM is found blocked on every one of the
      `n + 1` passes; and in the end only SIGALRM has been unblocked. */
  method Jmp2(m: Machine, n: nat, jb: Word, ia: Word, sets: Sets, s: array<Byte>, os: array<Byte>)
    returns (out: seq<Line>)
    requires s != os && s.Length == os.Length == 8
    requires n < LIMIT - 1 && m.mask !! UNBLOCKABLE && Laid(m, jb, ia)
    modifies m, sets, s, os
    ensures out == Transcript(0, n)
    ensures m.mask == old(m.mask) - {SIGALRM} && m.rsp == old(m.rsp)
    ensures Mapped(m.mem, ia, 8) && Load(m.mem, ia) == n
    ensures Stored(s[..]) == {SIGALRM} && Stored(os[..]) == old(m.mask) + {SIGALRM}
    ensures var l := |old(m.landings)|;
      && |m.landings| == l + n + 1 && m.landings[..l] == old(m.landings)
      && m.landings[l].rsp == old(m.rsp) && m.landings[l].mask == old(m.mask) + {SIGALRM}
      && forall k: Word | k <= n :: m.landings[l + k] == m.landings[l].(rax := k)
  {
    hide Load, Words, MaskWord, Mapped, Stored, Returned;
    out := [];
    var e := Prologue(m, jb, ia, sets, s, os);
    ReturnedOnce(old(m.landings), e);
    ghost var k := 0;
    while true
      invariant k <= n && (m.rax != 0 ==> k > 0) && AtReturn(m, jb, ia, e, if m.rax == 0 then k else k - 1)
      invariant out + Transcript(k, n) == Transcript(0, n)
      invariant Returned(old(m.landings), m.landings, e, k)
      decreases n - k
    {
      ghost var landings := m.landings;
      var lines, done := Pass(m, n, jb, ia, sets, s, os, e, k);
      assert out + Transcript(k, n) == if done then out + lines else (out + lines) + Transcript(k + 1, n);
      out := out + lines;
      if done {
        ReturnedAlike(old(m.landings), m.landings, e, n);
        return;
      }
      ReturnedAgain(old(m.landings), landings, e, k);
      k := k + 1;
    }
  }
}
