/** The debugger's `dump`: pages of memory shown from `dumpaddr` up to the end of the text section. */
module Dump {
  import opened MachineWords
  import opened Processor

  /** C's division, rounding towards zero. */
  function Quotient(x: int, d: int): int
    requires d > 0
  {
    if x >= 0 then x / d else -((-x) / d)
  }

  /** A 64-bit value kept in an `int`. */
  function Int32(x: int): int {
    var w := x % 0x1_0000_0000;
    if w < 0x8000_0000 then w else w - 0x1_0000_0000
  }

  function Clamp(x: int): nat {
    if x < 0 then 0 else x
  }

  function Min(x: int, y: int): int {
    if x < y then x else y
  }

  /** Lines printed when `left` bytes remain; the count is kept in an `int` too. */
  function Lines(left: int): int {
    if left >= 80 then 5 else Int32(Quotient(left, 16) + 1)
  }

  function NextAddr(a: int, end: int): int {
    a + 16 * Clamp(Lines(end - a))
  }

  /** How many bytes one dump shows. */
  function Count(a: int, end: int): nat {
    Min(16 * Clamp(Lines(end - a)), Clamp(Int32(end - a)))
  }

  function Range(a: int, n: nat): seq<int> {
    seq(n, i => a + i)
  }

  /** From 2^35 bytes past the end to less than 2^31 before it, a dump shows the next 80 bytes, or
      all that are left. */
  lemma CountExact(a: int, end: int)
    requires -0x8_0000_0000 <= end - a < 0x8000_0000
    ensures Count(a, end) == Clamp(Min(80, end - a))
  {
    var left := end - a;
    if left < 0 { assert Lines(left) <= 1; }
  }

  /** Anywhere, it does so exactly if the two quantities kept in an `int` come out right: the bytes
      left when there are 80 or more, and past the end one of the bytes left and the lines. */
  lemma CountExactly(a: int, end: int)
    ensures var left := end - a;
      Count(a, end) == Clamp(Min(80, left)) <==>
        if left >= 80 then Int32(left) >= 80
        else left >= 0 || Int32(left) <= 0 || Int32(Quotient(left, 16) + 1) <= 0
  {
  }

  /** Where the next dump starts: five lines on, or at the first line boundary behind the end; a
      line that starts less than 16 bytes past the end is still printed, empty. */
  lemma NextExact(a: int, end: int)
    requires -0x8_0000_0000 <= end - a
    ensures var left := end - a;
      && (left >= 80 ==> NextAddr(a, end) == a + 80)
      && (0 <= left < 80 ==> (NextAddr(a, end) - a) % 16 == 0 && end < NextAddr(a, end) <= end + 16)
      && (-16 < left < 0 ==> NextAddr(a, end) == a + 16)
      && (left <= -16 ==> NextAddr(a, end) == a)
  {
  }

  /** Past the end `dumpaddr` stays where it is exactly if the line count kept is not positive. */
  lemma StaysExactly(a: int, end: int)
    requires a >= end
    ensures NextAddr(a, end) == a <==> Int32(Quotient(end - a, 16) + 1) <= 0
  {
  }

  /** Two addresses far past the end where a dump does not come out empty: 64 bytes shown, and
      for a stack address over 700 million lines. */
  lemma FarPastEnd(end: int)
    ensures Count(end + 0x10_0000_0000 - 64, end) == 64
    ensures Lines(0x40_2000 - 0x7ffd_1234_5678) > 700_000_000
  {
  }

  /** The addresses shown by `k` dumps in a row without an argument. */
  function Shown(a: int, end: int, k: nat): seq<int>
    decreases k
  {
    if k == 0 then [] else Range(a, Count(a, end)) + Shown(NextAddr(a, end), end, k - 1)
  }

  lemma {:induction false} NothingPastEnd(a: int, end: int, k: nat)
    requires 0 <= a - end <= 0x8_0000_0000
    ensures Shown(a, end, k) == []
    decreases k
  {
    if k > 0 {
      CountExact(a, end);
      NothingPastEnd(NextAddr(a, end), end, k - 1);
    }
  }

  /** Repeated dumps show every byte up to the end exactly once, in order, and then nothing. */
  lemma {:induction false} PagesCover(a: int, end: int, k: nat)
    requires 0 <= end - a < 0x8000_0000
    ensures Shown(a, end, k) == Range(a, Min(80 * k, end - a))
    decreases k
  {
    if k > 0 {
      CountExact(a, end);
      var next := NextAddr(a, end);
      if end - a >= 80 {
        PagesCover(next, end, k - 1);
        assert Range(a, 80) + Range(a + 80, Min(80 * (k - 1), end - next)) == Range(a, Min(80 * k, end - a));
      } else {
        assert end - a < 16 * ((end - a) / 16 + 1);
        NothingPastEnd(next, end, k - 1);
      }
    }
  }

  /** Past the end `dumpaddr` moves at most once more. */
  lemma FixedPoint(a: int, end: int)
    requires a >= end
    ensures NextAddr(NextAddr(a, end), end) == NextAddr(a, end)
  {
  }

  /** The byte a peek delivers for address `a`, read as part of the word at `w`. */
  function Peeked(mem: Memory, w: int, a: int): bv8
    requires w <= a < w + 8
  {
    if 0 <= w < LIMIT && WordMapped(mem, w) then mem[a] else 0xff
  }

  /** The eight characters of a word in memory order. */
  function BytesOf(w: bv64): seq<bv8> {
    [NthByte(w, 0), NthByte(w, 1), NthByte(w, 2), NthByte(w, 3),
     NthByte(w, 4), NthByte(w, 5), NthByte(w, 6), NthByte(w, 7)]
  }

  const ALL_ONES: bv64 := 0xffff_ffff_ffff_ffff

  lemma BytesOfWord(mem: Memory, w: Word)
    requires WordMapped(mem, w)
    ensures BytesOf(WordAt(mem, w)) ==
      [mem[w], mem[w + 1], mem[w + 2], mem[w + 3], mem[w + 4], mem[w + 5], mem[w + 6], mem[w + 7]]
  {
  }

  lemma BytesOfOnes()
    ensures BytesOf(ALL_ONES) == [0xff, 0xff, 0xff, 0xff, 0xff, 0xff, 0xff, 0xff]
  {
  }

  method PeekBytes(mem: Memory, w: int) returns (bytes: seq<bv8>)
    ensures |bytes| == 8 && forall k | 0 <= k < 8 :: bytes[k] == Peeked(mem, w, w + k)
    ensures forall k | 0 <= k < 8 :: bytes[k] == if 0 <= w < LIMIT && WordMapped(mem, w) then mem[w + k] else 0xff
  {
    hide BytesOf, WordAt;
    if 0 <= w < LIMIT && WordMapped(mem, w) {
      BytesOfWord(mem, w);
      bytes := BytesOf(WordAt(mem, w));
    } else {
      BytesOfOnes();
      bytes := BytesOf(ALL_ONES);
    }
  }

  /** A byte on the screen, with the address it is shown for. */
  datatype Cell = Cell(addr: int, byte: bv8)

  function Cells(mem: Memory, a: int, n: nat): seq<Cell> {
    seq(n, i requires i >= 0 => Cell(a + i, Peeked(mem, a + 8 * (i / 8), a + i)))
  }

  class Pager {
    var dumpaddr: int

    constructor ()
      ensures dumpaddr == -1
    {
      dumpaddr := -1;
    }

    /** One line: two words, of which the bytes still to be shown are printed. */
    method Line(mem: Memory, length: int, count: nat) returns (cells: seq<Cell>)
      modifies this
      ensures dumpaddr == old(dumpaddr) + 16
      ensures cells == Cells(mem, old(dumpaddr), Min(16, Clamp(length - count)))
    {
      var base := dumpaddr;
      var low := PeekBytes(mem, dumpaddr);
      dumpaddr := dumpaddr + 8;
      var high := PeekBytes(mem, dumpaddr);
      dumpaddr := dumpaddr + 8;
      var bytes := low + high;
      cells := [];
      var i := 0;
      while i < 16
        invariant 0 <= i <= 16 && cells == Cells(mem, base, Min(i, Clamp(length - count)))
      {
        if count + |cells| < length {
          assert bytes[i] == Peeked(mem, base + 8 * (i / 8), base + i);
          cells := cells + [Cell(base + i, bytes[i])];
        }
        i := i + 1;
      }
    }

    /** `dump`, with an address or going on from the last one. */
    method Page(mem: Memory, end: int, addr: int, given: bool) returns (cells: seq<Cell>)
      modifies this
      ensures var a := if given then addr else old(dumpaddr);
        cells == Cells(mem, a, Count(a, end)) && dumpaddr == NextAddr(a, end)
    {
      if given { dumpaddr := addr; }
      ghost var a := dumpaddr;
      var length := Int32(end - dumpaddr);
      var lines := if end - dumpaddr >= 80 then 5 else Int32(Quotient(end - dumpaddr, 16) + 1);
      cells := [];
      var i := 0;
      while i < lines
        invariant 0 <= i <= Clamp(lines)
        invariant dumpaddr == a + 16 * i
        invariant cells == Cells(mem, a, Min(16 * i, Clamp(length)))
      {
        var line := Line(mem, length, |cells|);
        CellsJoin(mem, a, 16 * i, Clamp(length), |cells|);
        cells := cells + line;
        i := i + 1;
      }
    }

    /** `k` dumps in a row without an argument. */
    method Pages(mem: Memory, end: int, k: nat) returns (cells: seq<Cell>)
      modifies this
      ensures cells == PageCells(mem, old(dumpaddr), end, k)
      ensures AddrsOf(cells) == Shown(old(dumpaddr), end, k)
    {
      hide Cells, AddrsOf, Range, Count, NextAddr;
      cells := [];
      var i := 0;
      while i < k
        invariant 0 <= i <= k
        invariant cells + PageCells(mem, dumpaddr, end, k - i) == PageCells(mem, old(dumpaddr), end, k)
      {
        var page := Page(mem, end, 0, false);
        assert cells + (page + PageCells(mem, dumpaddr, end, k - i - 1))
          == (cells + page) + PageCells(mem, dumpaddr, end, k - i - 1);
        cells := cells + page;
        i := i + 1;
      }
      PageAddrs(mem, old(dumpaddr), end, k);
    }
  }

  /** What `k` dumps in a row show. */
  function PageCells(mem: Memory, a: int, end: int, k: nat): seq<Cell>
    decreases k
  {
    if k == 0 then [] else Cells(mem, a, Count(a, end)) + PageCells(mem, NextAddr(a, end), end, k - 1)
  }

  function AddrsOf(cells: seq<Cell>): seq<int> {
    seq(|cells|, i requires 0 <= i < |cells| => cells[i].addr)
  }

  lemma {:induction false} PageAddrs(mem: Memory, a: int, end: int, k: nat)
    ensures AddrsOf(PageCells(mem, a, end, k)) == Shown(a, end, k)
    decreases k
  {
    if k > 0 { PageAddrs(mem, NextAddr(a, end), end, k - 1); }
  }

  /** Where memory is mapped around what is shown, each byte shown is the byte in memory. */
  lemma {:induction false} PageBytes(mem: Memory, a: int, end: int, k: nat)
    requires 0 <= a && end + 8 <= LIMIT && forall x: Word | a <= x < end + 8 :: x in mem
    requires -0x8_0000_0000 <= end - a < 0x8000_0000
    ensures forall c | c in PageCells(mem, a, end, k) :: a <= c.addr < end && c.addr in mem && c.byte == mem[c.addr]
    decreases k
  {
    if k > 0 {
      CountExact(a, end);
      var n := Count(a, end);
      forall i | 0 <= i < n ensures 0 <= a + i < LIMIT && Peeked(mem, a + 8 * (i / 8), a + i) == mem[a + i] {
        assert WordMapped(mem, a + 8 * (i / 8));
      }
      PageBytes(mem, NextAddr(a, end), end, k - 1);
    }
  }

  lemma CellsJoin(mem: Memory, a: int, shown: nat, length: nat, count: nat)
    requires shown % 8 == 0 && count == Min(shown, length)
    ensures Cells(mem, a, count) + Cells(mem, a + shown, Min(16, Clamp(length - count)))
      == Cells(mem, a, Min(shown + 16, length))
  {
  }
}
