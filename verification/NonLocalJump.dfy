/** `setjmp` and `longjmp`, instruction by instruction, on the registers and memory they use. */
module NonLocalJump {
  import opened MachineWords
  import opened WordMemory
  import opened SignalWords

  const SIGKILL := 9
  const SIGSTOP := 19

  /** The signals the kernel never blocks. */
  const UNBLOCKABLE: SigSet := {SIGKILL, SIGSTOP}

  const SYS_RT_SIGPROCMASK: Word := 14
  const SIG_BLOCK: Word := 0
  const SIG_UNBLOCK: Word := 1
  const SIG_SETMASK: Word := 2

  /** The signal mask after rt_sigprocmask with a set, for a known `how`. */
  function Masked(how: Word, mask: SigSet, sigs: SigSet): SigSet {
    if how == SIG_BLOCK then mask + (sigs - UNBLOCKABLE)
    else if how == SIG_UNBLOCK then mask - (sigs - UNBLOCKABLE)
    else sigs - UNBLOCKABLE
  }

  /** Signal by signal, and whatever is asked for, never KILL or STOP. */
  lemma MaskedMembers(how: Word, mask: SigSet, sigs: SigSet, s: int)
    ensures var asked := s in sigs && s != SIGKILL && s != SIGSTOP;
      && (how == SIG_BLOCK ==> (s in Masked(how, mask, sigs) <==> s in mask || asked))
      && (how == SIG_UNBLOCK ==> (s in Masked(how, mask, sigs) <==> s in mask && !asked))
      && (how == SIG_SETMASK ==> (s in Masked(how, mask, sigs) <==> asked))
  {
  }

  /** What a caller of `setjmp` observes when it returns: where, on which frame, with what. */
  datatype Landing = Landing(rip: Word, rsp: int, rax: Word, rbx: Word, rbp: Word,
                             r12: Word, r13: Word, r14: Word, r15: Word, mask: SigSet)

  /** What a `jmp_buf` records. */
  datatype Env = Env(rbx: Word, rsp: Word, rbp: Word, r12: Word, r13: Word, r14: Word, r15: Word,
                     ret: Word, mask: SigSet)

  const JMP_BUF_SIZE := 72

  function Saved(e: Env): seq<Word> {
    [e.rbx, e.rsp, e.rbp, e.r12, e.r13, e.r14, e.r15, e.ret]
  }

  /** The `jmp_buf` at `j` holds `e`. */
  predicate Holds(mem: Memory, j: int, e: Env) {
    Words(mem, j, Saved(e) + [MaskWord(e.mask)])
  }

  /** The stack words both routines may write, for a return slot at `sp`. */
  predicate Window(mem: Memory, sp: int) {
    Mapped(mem, sp - 32, 40)
  }

  predicate Apart(j: int, sp: int) {
    j + JMP_BUF_SIZE <= sp - 32 || sp + 8 <= j
  }

  lemma FieldsHeld(mem: Memory, j: int, e: Env)
    requires Holds(mem, j, e)
    ensures Mapped(mem, j, JMP_BUF_SIZE)
    ensures Load(mem, j) == e.rbx && Load(mem, j + 8) == e.rsp && Load(mem, j + 16) == e.rbp
    ensures Load(mem, j + 24) == e.r12 && Load(mem, j + 32) == e.r13 && Load(mem, j + 40) == e.r14
    ensures Load(mem, j + 48) == e.r15 && Load(mem, j + 56) == e.ret && Load(mem, j + 64) == MaskWord(e.mask)
  {
    hide Load, MaskWord;
    var all := Saved(e) + [MaskWord(e.mask)];
    assert all[0] == e.rbx && all[1] == e.rsp && all[2] == e.rbp && all[3] == e.r12 && all[4] == e.r13;
    assert all[5] == e.r14 && all[6] == e.r15 && all[7] == e.ret && all[8] == MaskWord(e.mask);
  }

  class Machine {
    var rax: Word
    var rbx: Word
    var rcx: Word
    var rdx: Word
    var rsi: Word
    var rdi: Word
    var rbp: Word
    var rsp: Word
    var r10: Word
    var r11: Word
    var r12: Word
    var r13: Word
    var r14: Word
    var r15: Word
    var rip: Word
    var mem: Memory
    var mask: SigSet
    /** What was observed after each `ret` of the two routines so far. */
    ghost var landings: seq<Landing>

    function Observed(): Landing
      reads this
    {
      Landing(rip, rsp, rax, rbx, rbp, r12, r13, r14, r15, mask)
    }

    /** `mov qword [a], v` */
    method MovTo(a: int, v: Word)
      requires Mapped(mem, a, 8)
      modifies this`mem
      ensures mem == Store(old(mem), a, v)
    {
      mem := Store(mem, a, v);
    }

    method Push(v: Word)
      requires Mapped(mem, rsp - 8, 8)
      modifies this`mem, this`rsp
      ensures rsp == old(rsp) - 8 && mem == Store(old(mem), old(rsp) - 8, v)
    {
      rsp := rsp - 8;
      MovTo(rsp, v);
    }

    method Pop() returns (v: Word)
      requires Mapped(mem, rsp, 8) && rsp + 8 < LIMIT
      modifies this`rsp
      ensures v == Load(mem, old(rsp)) && rsp == old(rsp) + 8
    {
      v := Load(mem, rsp);
      rsp := rsp + 8;
    }

    method Ret()
      requires Mapped(mem, rsp, 8) && rsp + 8 < LIMIT
      modifies this`rsp, this`rip, this`landings
      ensures rip == Load(mem, old(rsp)) && rsp == old(rsp) + 8 && landings == old(landings) + [Observed()]
    {
      rip := Pop();
      landings := landings + [Observed()];
    }

    /** `syscall` 14: change the mask as `rdi` says by the set at `rsi`, unless that is null, and
        store the old mask at `rdx`, unless that is null.  The instruction clobbers rcx and r11. */
    method Syscall()
      requires rax == SYS_RT_SIGPROCMASK && r10 == 8
      requires rsi == 0 || Mapped(mem, rsi, 8)
      requires rdx == 0 || Mapped(mem, rdx, 8)
      modifies this`rax, this`rcx, this`r11, this`mem, this`mask
      ensures
        if rsi != 0 && rdi > SIG_SETMASK then rax == LIMIT - EINVAL && mem == old(mem) && mask == old(mask)
        else
          && rax == 0
          && mask == (if rsi == 0 then old(mask) else Masked(rdi, old(mask), WordMask(Load(old(mem), rsi))))
          && mem == (if rdx == 0 then old(mem) else Store(old(mem), rdx, MaskWord(old(mask))))
    {
      rcx := *;
      r11 := *;
      if rsi != 0 && rdi > SIG_SETMASK {
        rax := LIMIT - EINVAL;
        return;
      }
      var was := mask;
      if rsi != 0 { mask := Masked(rdi, mask, WordMask(Load(mem, rsi))); }
      if rdx != 0 { mem := Store(mem, rdx, MaskWord(was)); }
      rax := 0;
    }

    /** The environment a `setjmp` called in this state records. */
    function Here(): Env
      requires Mapped(mem, rsp, 8)
      reads this
    {
      Env(rbx, rsp, rbp, r12, r13, r14, r15, Load(mem, rsp), mask)
    }

    /** What the two routines keep on the stack around the system call. */
    ghost function Spilled(): seq<Word>
      reads this
    {
      [r10, rdx, rsi, rdi]
    }

    /** `mov qword [rdi + 8 * k], v`, right behind the words already in the buffer. */
    method Save(v: Word, k: nat, ghost m: Memory, ghost all: seq<Word>)
      requires k < |all| == 8 && v == all[k]
      requires Words(mem, rdi, all[..k]) && Mapped(mem, rdi, JMP_BUF_SIZE)
      requires SameOutside(m, mem, rdi, rdi + 64)
      modifies this`mem
      ensures Words(mem, rdi, all[..k + 1]) && Mapped(mem, rdi, JMP_BUF_SIZE)
      ensures SameOutside(m, mem, rdi, rdi + 64)
    {
      hide Load, Store;
      WordsAppend(mem, rdi, all[..k], v);
      assert all[..k] + [v] == all[..k + 1];
      MovTo(rdi + 8 * k, v);
    }

    /** Lines 93-101 of the assembly: everything but the mask goes into the buffer. */
    method SaveRegisters()
      requires Mapped(mem, rdi, JMP_BUF_SIZE) && Mapped(mem, rsp, 8)
      requires rdi + JMP_BUF_SIZE <= rsp || rsp + 8 <= rdi
      modifies this`mem, this`rax
      ensures Words(mem, rdi, Saved(old(Here()))) && SameOutside(old(mem), mem, rdi, rdi + 64)
    {
      hide Load, Store, Words, SameOutside;
      ghost var m, all := mem, Saved(Here());
      WordsNone(m, rdi, all);
      SameAsIs(m, rdi, rdi + 64);
      Save(rbx, 0, m, all);
      Save(rsp, 1, m, all);
      Save(rbp, 2, m, all);
      Save(r12, 3, m, all);
      Save(r13, 4, m, all);
      Save(r14, 5, m, all);
      Save(r15, 6, m, all);
      LoadOutside(m, mem, rdi, rdi + 64, rsp);
      rax := Load(mem, rsp);
      Save(rax, 7, m, all);
      assert all[..8] == all;
    }

    /** `push v`, on top of the words pushed since the stack pointer was `sp`. */
    method PushOnto(v: Word, ghost k: nat, ghost m: Memory, ghost sp: int, ghost all: seq<Word>)
      requires k < |all| == 4 && v == all[k] && rsp == sp - 8 * (3 - k)
      requires Words(mem, rsp, all[k + 1..]) && Mapped(mem, sp - 32, 32) && SameOutside(m, mem, sp - 32, sp)
      modifies this`mem, this`rsp
      ensures rsp == old(rsp) - 8
      ensures Words(mem, rsp, all[k..]) && Mapped(mem, sp - 32, 32) && SameOutside(m, mem, sp - 32, sp)
    {
      hide Load, Store;
      WordsPrepend(mem, rsp, all[k + 1..], v);
      assert [v] + all[k + 1..] == all[k..];
      Push(v);
    }

    /** Lines 103-106 and 131-134. */
    method PushFour()
      requires Mapped(mem, rsp - 32, 32)
      modifies this`mem, this`rsp
      ensures rsp == old(rsp) - 32 && Words(mem, rsp, Spilled())
      ensures SameOutside(old(mem), mem, rsp, old(rsp))
    {
      hide Load, Store;
      ghost var sp, m, all := rsp, mem, Spilled();
      PushOnto(rdi, 3, m, sp, all);
      PushOnto(rsi, 2, m, sp, all);
      PushOnto(rdx, 1, m, sp, all);
      PushOnto(r10, 0, m, sp, all);
      assert all[0..] == all;
    }

    /** Lines 112-115 and 142-145. */
    method PopFour(ghost all: seq<Word>)
      requires |all| == 4 && Words(mem, rsp, all) && rsp + 32 < LIMIT
      modifies this`rsp, this`r10, this`rdx, this`rsi, this`rdi
      ensures rsp == old(rsp) + 32 && r10 == all[0] && rdx == all[1] && rsi == all[2] && rdi == all[3]
    {
      hide Load, Store;
      r10 := Pop();
      rdx := Pop();
      rsi := Pop();
      rdi := Pop();
    }

    /** Lines 103-115: the current mask goes behind the saved registers. */
    method SaveMask(ghost saved: seq<Word>)
      requires |saved| == 8 && Words(mem, rdi, saved)
      requires Mapped(mem, rdi, JMP_BUF_SIZE) && Window(mem, rsp) && Apart(rdi, rsp)
      requires rdi + JMP_BUF_SIZE < LIMIT
      modifies this`mem, this`mask, this`rax, this`rcx, this`r11, this`rsp, this`r10, this`rdx, this`rsi, this`rdi
      ensures Words(mem, old(rdi), saved + [MaskWord(old(mask))]) && mask == old(mask)
      ensures rsp == old(rsp) && rdi == old(rdi) && rsi == old(rsi) && rdx == old(rdx) && r10 == old(r10)
      ensures SameOutsideBoth(old(mem), mem, rsp - 32, rsp, rdi + 64, rdi + 72)
    {
      hide Load, Store, Words, SameOutside, MaskWord;
      ghost var j, sp, spilled, m := rdi, rsp, Spilled(), mem;
      PushFour();
      ghost var m2 := mem;
      WordsOutside(m, m2, sp - 32, sp, j, saved);
      MappedSame(m, m2, sp - 32, sp, j, JMP_BUF_SIZE);
      rsi := 0;
      rdx := rdi + 64;
      r10 := 8;
      rax := SYS_RT_SIGPROCMASK;
      Syscall();
      WordsAppend(m2, j, saved, MaskWord(mask));
      WordsOutside(m2, mem, j + 64, j + 72, sp - 32, spilled);
      SameBoth(m, m2, mem, sp - 32, sp, j + 64, j + 72);
      PopFour(spilled);
    }

    method Setjmp()
      requires Mapped(mem, rdi, JMP_BUF_SIZE) && Window(mem, rsp) && Apart(rdi, rsp)
      requires rdi + JMP_BUF_SIZE < LIMIT && rsp + 8 < LIMIT
      modifies this
      ensures Holds(mem, rdi, old(Here()))
      ensures rip == old(Load(mem, rsp)) && rax == 0 && rsp == old(rsp) + 8 && mask == old(mask)
      ensures unchanged(`rbx, `rbp, `r12, `r13, `r14, `r15, `rdi, `rsi, `rdx, `r10)
      ensures SameOutsideBoth(old(mem), mem, old(rsp) - 32, old(rsp), rdi, rdi + JMP_BUF_SIZE)
      ensures landings == old(landings) + [Observed()]
    {
      hide Load, Store, Words, MaskWord, Observed;
      ghost var j, sp, m, e := rdi, rsp, mem, Here();
      SaveRegisters();
      MappedSame(m, mem, j, j + 64, j, JMP_BUF_SIZE);
      MappedSame(m, mem, j, j + 64, sp - 32, 40);
      SaveMask(Saved(e));
      LoadOutsideBoth(m, mem, sp - 32, sp, j, j + JMP_BUF_SIZE, sp);
      rax := 0;
      Ret();
    }

    /** Lines 121-129: the saved registers come back, and the return slot is rewritten. */
    method RestoreRegisters(ghost e: Env)
      requires Holds(mem, rdi, e) && Window(mem, e.rsp)
      modifies this`mem, this`rax, this`rbx, this`rsp, this`rbp, this`r12, this`r13, this`r14, this`r15
      ensures rbx == e.rbx && rsp == e.rsp && rbp == e.rbp
      ensures r12 == e.r12 && r13 == e.r13 && r14 == e.r14 && r15 == e.r15
      ensures mem == Store(old(mem), e.rsp, e.ret)
    {
      hide Load, Store, Words, MaskWord;
      FieldsHeld(mem, rdi, e);
      rbx := Load(mem, rdi + 0);
      rsp := Load(mem, rdi + 8);
      rbp := Load(mem, rdi + 16);
      r12 := Load(mem, rdi + 24);
      r13 := Load(mem, rdi + 32);
      r14 := Load(mem, rdi + 40);
      r15 := Load(mem, rdi + 48);
      rax := Load(mem, rdi + 56);
      MovTo(rsp, rax);
    }

    /** Lines 131-145: the mask in the buffer becomes the current one. */
    method InstallMask(ghost saved: SigSet)
      requires rdi + JMP_BUF_SIZE < LIMIT && Mapped(mem, rdi + 64, 8) && Load(mem, rdi + 64) == MaskWord(saved)
      requires Mapped(mem, rsp - 32, 32) && Apart(rdi, rsp)
      modifies this`mem, this`mask, this`rax, this`rcx, this`r11, this`rsp, this`r10, this`rdx, this`rsi, this`rdi
      ensures mask == saved - UNBLOCKABLE
      ensures rsp == old(rsp) && rdi == old(rdi) && rsi == old(rsi) && rdx == old(rdx) && r10 == old(r10)
      ensures SameOutside(old(mem), mem, rsp - 32, rsp)
    {
      hide Load, Store, Words, SameOutside, MaskWord, WordMask;
      ghost var spilled, sp := Spilled(), rsp;
      PushFour();
      LoadOutside(old(mem), mem, sp - 32, sp, rdi + 64);
      rsi := rdi + 64;
      rdi := SIG_SETMASK;
      rdx := 0;
      r10 := 8;
      rax := SYS_RT_SIGPROCMASK;
      Syscall();
      MaskRoundTrip(saved);
      PopFour(spilled);
    }

    /** Lines 121-145: the environment in the buffer becomes the current one. */
    method RestoreEnvironment(ghost e: Env)
      requires Holds(mem, rdi, e) && rdi + JMP_BUF_SIZE < LIMIT
      requires Window(mem, e.rsp) && Apart(rdi, e.rsp) && e.rsp + 8 < LIMIT
      modifies this
      ensures rbx == e.rbx && rbp == e.rbp && r12 == e.r12 && r13 == e.r13 && r14 == e.r14 && r15 == e.r15
      ensures Mapped(mem, e.rsp, 8) && Load(mem, e.rsp) == e.ret && rsp == e.rsp && mask == e.mask - UNBLOCKABLE
      ensures unchanged(`rdi, `rsi, `rdx, `r10, `rip, `landings)
      ensures SameOutside(old(mem), mem, e.rsp - 32, e.rsp + 8) && Holds(mem, rdi, e)
    {
      hide Load, Store, Words, SameOutside, MaskWord, WordMask;
      ghost var j, sp, m, all := rdi, e.rsp, mem, Saved(e) + [MaskWord(e.mask)];
      RestoreRegisters(e);
      ghost var m1 := mem;
      WordsOutside(m, m1, sp, sp + 8, j, all);
      FieldsHeld(m1, j, e);
      MappedSame(m, m1, sp, sp + 8, sp - 32, 40);
      InstallMask(e.mask);
      WordsOutside(m1, mem, sp - 32, sp, j, all);
      LoadOutside(m1, mem, sp - 32, sp, sp);
      SameTrans(m, m1, mem, sp - 32, sp + 8, sp, sp + 8, sp - 32, sp);
    }

    method Longjmp(ghost e: Env)
      requires Holds(mem, rdi, e) && rdi + JMP_BUF_SIZE < LIMIT
      requires Window(mem, e.rsp) && Apart(rdi, e.rsp) && e.rsp + 8 < LIMIT
      modifies this
      ensures rbx == e.rbx && rbp == e.rbp && r12 == e.r12 && r13 == e.r13 && r14 == e.r14 && r15 == e.r15
      ensures rip == e.ret && rsp == e.rsp + 8 && rax == old(rsi) && mask == e.mask - UNBLOCKABLE
      ensures unchanged(`rdi, `rsi, `rdx, `r10)
      ensures SameOutside(old(mem), mem, e.rsp - 32, e.rsp + 8) && Holds(mem, rdi, e)
      ensures landings == old(landings) + [Observed()]
    {
      hide Load, Words, SameOutside, MaskWord;
      RestoreEnvironment(e);
      rax := rsi;
      Ret();
    }
  }
}
