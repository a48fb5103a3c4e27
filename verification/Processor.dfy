/**
 The machine the debugger works on: a byte memory, a register file, and an abstract
 deterministic instruction step.  `int3` is the only instruction whose meaning is fixed here.
 */
module Processor {
  import opened MachineWords

  /** Bytes here are bit vectors, for the masking the debugger does on them. */
  type Memory = map<Word, bv8>

  const INT3: bv8 := 0xcc

  datatype Register =
    | Rax | Rbx | Rcx | Rdx | R8 | R9 | R10 | R11 | R12 | R13 | R14 | R15
    | Rdi | Rsi | Rbp | Rsp | Rip | Flags

  /** The whole state of a process.  `regs` holds every register except `rip`. */
  datatype Cpu = Cpu(rip: Word, regs: map<Register, Word>, mem: Memory) {
    function Write(reg: Register, val: Word): Cpu {
      if reg.Rip? then this.(rip := val) else this.(regs := regs[reg := val])
    }
  }

  /** A write to a register changes that register and nothing else. */
  lemma WriteOne(c: Cpu, reg: Register, val: Word)
    ensures var d := c.Write(reg, val);
      && d.mem == c.mem
      && (reg == Rip ==> d.rip == val && d.regs == c.regs)
      && (reg != Rip ==>
            && d.rip == c.rip && reg in d.regs && d.regs[reg] == val
            && (forall r | r != reg :: r in d.regs <==> r in c.regs)
            && forall r | r != reg && r in c.regs :: d.regs[r] == c.regs[r])
  {
  }

  /** What one undisturbed instruction does: move to another state, or end the process. */
  datatype Outcome = Next(cpu: Cpu) | Exit(status: int)

  function After(a: Word): Word {
    if a + 1 == LIMIT then 0 else a + 1
  }

  function Before(a: Word): Word {
    if a == 0 then LIMIT - 1 else a - 1
  }

  // ---------- Eight-byte little-endian words, as PEEKTEXT and POKETEXT move them ----------

  predicate WordMapped(mem: Memory, a: Word) {
    a + 8 <= LIMIT && forall k: Word | a <= k < a + 8 :: k in mem
  }

  function Join(b0: bv8, b1: bv8, b2: bv8, b3: bv8, b4: bv8, b5: bv8, b6: bv8, b7: bv8): bv64 {
    (b0 as bv64) | ((b1 as bv64) << 8) | ((b2 as bv64) << 16) | ((b3 as bv64) << 24)
    | ((b4 as bv64) << 32) | ((b5 as bv64) << 40) | ((b6 as bv64) << 48) | ((b7 as bv64) << 56)
  }

  function LowByte(w: bv64): bv8 {
    (w & 0xff) as bv8
  }

  /** Byte `k` of a word, the lowest first. */
  function NthByte(w: bv64, k: nat): bv8
    requires k < 8
  {
    LowByte(if k == 0 then w else if k == 1 then w >> 8 else if k == 2 then w >> 16 else if k == 3 then w >> 24
            else if k == 4 then w >> 32 else if k == 5 then w >> 40 else if k == 6 then w >> 48 else w >> 56)
  }

  function WordAt(mem: Memory, a: Word): bv64
    requires WordMapped(mem, a)
  {
    Join(mem[a], mem[a + 1], mem[a + 2], mem[a + 3], mem[a + 4], mem[a + 5], mem[a + 6], mem[a + 7])
  }

  function PutBytes(mem: Memory, a: Word,
                    b0: bv8, b1: bv8, b2: bv8, b3: bv8, b4: bv8, b5: bv8, b6: bv8, b7: bv8): Memory
    requires WordMapped(mem, a)
  {
    mem[a := b0][a + 1 := b1][a + 2 := b2][a + 3 := b3][a + 4 := b4][a + 5 := b5][a + 6 := b6][a + 7 := b7]
  }

  function PutWord(mem: Memory, a: Word, w: bv64): Memory
    requires WordMapped(mem, a)
  {
    PutBytes(mem, a, NthByte(w, 0), NthByte(w, 1), NthByte(w, 2), NthByte(w, 3),
             NthByte(w, 4), NthByte(w, 5), NthByte(w, 6), NthByte(w, 7))
  }

  /** A signed `char` widened to a 64-bit integer. */
  function SignExtend(c: bv8): bv64 {
    if c & 0x80 == 0 then c as bv64 else 0xffff_ffff_ffff_ff00 | (c as bv64)
  }

  /** `word` with its low byte replaced by the character `c`. */
  function Splice(word: bv64, c: bv8): bv64 {
    (word & 0xffff_ffff_ffff_ff00) | (SignExtend(c) & 0xff)
  }

  lemma JoinBytes(b0: bv8, b1: bv8, b2: bv8, b3: bv8, b4: bv8, b5: bv8, b6: bv8, b7: bv8)
    ensures var w := Join(b0, b1, b2, b3, b4, b5, b6, b7);
      && NthByte(w, 0) == b0 && NthByte(w, 1) == b1 && NthByte(w, 2) == b2 && NthByte(w, 3) == b3
      && NthByte(w, 4) == b4 && NthByte(w, 5) == b5 && NthByte(w, 6) == b6 && NthByte(w, 7) == b7
  {
  }

  lemma FirstByte(w: bv64)
    ensures NthByte(w, 0) == LowByte(w)
  {
  }

  lemma SpliceJoin(b0: bv8, b1: bv8, b2: bv8, b3: bv8, b4: bv8, b5: bv8, b6: bv8, b7: bv8, c: bv8)
    ensures Splice(Join(b0, b1, b2, b3, b4, b5, b6, b7), c) == Join(c, b1, b2, b3, b4, b5, b6, b7)
  {
  }

  lemma PutOneByte(mem: Memory, a: Word, c: bv8)
    requires WordMapped(mem, a)
    ensures PutBytes(mem, a, c, mem[a + 1], mem[a + 2], mem[a + 3], mem[a + 4], mem[a + 5], mem[a + 6], mem[a + 7])
      == mem[a := c]
  {
  }

  /** Reading a word, splicing one byte in and writing it back changes exactly that byte of
      memory, and the byte it displaces is the low byte of the word, whatever its sign. */
  lemma SpliceOneByte(mem: Memory, a: Word, c: bv8)
    requires WordMapped(mem, a)
    ensures PutWord(mem, a, Splice(WordAt(mem, a), c)) == mem[a := c]
    ensures LowByte(WordAt(mem, a)) == mem[a]
  {
    hide Join, Splice, LowByte, NthByte;
    var b0, b1, b2, b3 := mem[a], mem[a + 1], mem[a + 2], mem[a + 3];
    var b4, b5, b6, b7 := mem[a + 4], mem[a + 5], mem[a + 6], mem[a + 7];
    JoinBytes(b0, b1, b2, b3, b4, b5, b6, b7);
    SpliceJoin(b0, b1, b2, b3, b4, b5, b6, b7, c);
    JoinBytes(c, b1, b2, b3, b4, b5, b6, b7);
    FirstByte(WordAt(mem, a));
    PutOneByte(mem, a, c);
  }

  // ---------- Memory overlaid with breakpoints ----------

  function Overlay(mem: Memory, armed: set<Word>): Memory {
    map a | a in mem :: if a in armed then INT3 else mem[a]
  }

  function Patch(c: Cpu, armed: set<Word>): Cpu {
    c.(mem := Overlay(c.mem, armed))
  }

  function PatchOutcome(o: Outcome, armed: set<Word>): Outcome {
    match o
    case Next(c) => Next(Patch(c, armed))
    case Exit(s) => Exit(s)
  }

  /** The processor stops here: the byte at `rip` is `int3`. */
  predicate AtTrap(c: Cpu) {
    c.rip in c.mem && c.mem[c.rip] == INT3
  }

  /** A program under debugging.  `good` is any set of undisturbed states closed under `step`
      (for instance the states the session goes through); `sites` are the addresses where
      breakpoints may be put. */
  datatype Program = Program(step: Cpu -> Outcome, good: iset<Cpu>, sites: set<Word>)

  /** Sites are mapped, the program has no `int3` of its own, and it neither reads nor writes
      a breakpointed byte as data: a step away from armed addresses does not notice them. */
  ghost predicate Debuggable(p: Program) {
    && (forall c | c in p.good :: SitesMapped(p, c) && !AtTrap(c))
    && (forall c | c in p.good && p.step(c).Next? :: p.step(c).cpu in p.good && SameSites(p, c, p.step(c).cpu))
    && (forall c, armed | c in p.good && armed <= p.sites && c.rip !in armed ::
          p.step(Patch(c, armed)) == PatchOutcome(p.step(c), armed))
  }

  ghost predicate SitesMapped(p: Program, c: Cpu) {
    0 !in c.mem && forall a | a in p.sites :: WordMapped(c.mem, a)
  }

  ghost predicate SameSites(p: Program, c: Cpu, d: Cpu) {
    forall a | a in p.sites && a in c.mem && a in d.mem :: d.mem[a] == c.mem[a]
  }
}
