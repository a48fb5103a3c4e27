/** Byte memory read and written in 64-bit little-endian words, for the mini libc's assembly. */
module WordMemory {
  import opened MachineWords

  type Memory = map<Word, Byte>

  /** `n` mapped bytes from `a`, not wrapping around the address space. */
  predicate Mapped(mem: Memory, a: int, n: int) {
    0 <= a && a + n <= LIMIT && forall k: Word | a <= k < a + n :: k in mem
  }

  function Power256(n: nat): (p: nat)
    ensures p > 0
  {
    if n == 0 then 1 else 0x100 * Power256(n - 1)
  }

  function LoadBytes(mem: Memory, a: int, n: nat): (v: nat)
    requires Mapped(mem, a, n)
    ensures v < Power256(n)
    decreases n, a
  {
    if n == 0 then 0 else (mem[a] as int) + 0x100 * LoadBytes(mem, a + 1, n - 1)
  }

  function StoreBytes(mem: Memory, a: int, v: nat, n: nat): (m: Memory)
    requires Mapped(mem, a, n)
    ensures SameOutside(mem, m, a, a + n)
    decreases n, a
  {
    if n == 0 then mem else StoreBytes(mem[a := v % 0x100], a + 1, v / 0x100, n - 1)
  }

  /** Bytes outside `[lo, hi)` are untouched. */
  ghost predicate SameOutside(mem: Memory, now: Memory, lo: int, hi: int) {
    now.Keys == mem.Keys && forall k | k in mem && !(lo <= k < hi) :: now[k] == mem[k]
  }

  lemma {:induction false} StoreLoadBytes(mem: Memory, a: int, v: nat, n: nat)
    requires Mapped(mem, a, n) && v < Power256(n)
    ensures Mapped(StoreBytes(mem, a, v, n), a, n) && LoadBytes(StoreBytes(mem, a, v, n), a, n) == v
    decreases n
  {
    if n > 0 { StoreLoadBytes(mem[a := v % 0x100], a + 1, v / 0x100, n - 1); }
  }

  /** The lowest byte comes first. */
  lemma {:induction false} StoredByte(mem: Memory, a: int, v: nat, n: nat, k: nat)
    requires Mapped(mem, a, n) && k < n
    ensures StoreBytes(mem, a, v, n)[a + k] == v / Power256(k) % 0x100
    decreases n
  {
    if k > 0 {
      StoredByte(mem[a := v % 0x100], a + 1, v / 0x100, n - 1, k - 1);
      DivDiv(v, Power256(k - 1));
    }
  }

  lemma DivDiv(v: nat, p: nat)
    requires p > 0
    ensures v / (0x100 * p) == v / 0x100 / p
  {
    var q := v / 0x100 / p;
    var r, s := v / 0x100 % p, v % 0x100;
    assert v / 0x100 == p * q + r && v == 0x100 * (p * q + r) + s;
    assert v == (0x100 * p) * q + (0x100 * r + s);
    Quotient(v, 0x100 * p, q, 0x100 * r + s);
  }

  lemma Multiple(d: int, x: int)
    requires -d < d * x < d
    ensures x == 0
  {
  }

  lemma Quotient(v: nat, d: nat, q: nat, r: nat)
    requires d > 0 && v == d * q + r && r < d
    ensures v / d == q
  {
    var e := v / d;
    assert v == d * e + v % d;
    assert d * (e - q) == r - v % d;
    Multiple(d, e - q);
  }

  // Words are eight bytes wide.

  lemma WidthLimit()
    ensures Power256(8) == LIMIT
  {
  }

  function Load(mem: Memory, a: int): Word
    requires Mapped(mem, a, 8)
  {
    WidthLimit();
    LoadBytes(mem, a, 8)
  }

  function Store(mem: Memory, a: int, v: Word): (m: Memory)
    requires Mapped(mem, a, 8)
    ensures SameOutside(mem, m, a, a + 8)
    ensures Load(m, a) == v
  {
    WidthLimit();
    StoreLoadBytes(mem, a, v, 8);
    StoreBytes(mem, a, v, 8)
  }

  /** Bytes outside `[a, b)` and `[c, d)` are untouched. */
  ghost predicate SameOutsideBoth(mem: Memory, now: Memory, a: int, b: int, c: int, d: int) {
    now.Keys == mem.Keys && forall k | k in mem && !(a <= k < b) && !(c <= k < d) :: now[k] == mem[k]
  }

  lemma {:induction false} LoadBytesOutsideBoth(mem: Memory, now: Memory, a: int, b: int, c: int, d: int,
                                                x: int, n: nat)
    requires SameOutsideBoth(mem, now, a, b, c, d) && Mapped(mem, x, n)
    requires (x + n <= a || b <= x) && (x + n <= c || d <= x)
    ensures Mapped(now, x, n) && LoadBytes(now, x, n) == LoadBytes(mem, x, n)
    decreases n
  {
    if n > 0 { LoadBytesOutsideBoth(mem, now, a, b, c, d, x + 1, n - 1); }
  }

  lemma LoadOutsideBoth(mem: Memory, now: Memory, a: int, b: int, c: int, d: int, x: int)
    requires SameOutsideBoth(mem, now, a, b, c, d) && Mapped(mem, x, 8)
    requires (x + 8 <= a || b <= x) && (x + 8 <= c || d <= x)
    ensures Mapped(now, x, 8) && Load(now, x) == Load(mem, x)
  {
    LoadBytesOutsideBoth(mem, now, a, b, c, d, x, 8);
  }

  /** Consecutive words from `a`. */
  predicate Words(mem: Memory, a: int, vals: seq<Word>) {
    && Mapped(mem, a, 8 * |vals|)
    && forall i {:trigger vals[i]} | 0 <= i < |vals| :: Load(mem, a + 8 * i) == vals[i]
  }

  lemma WordsKept(mem: Memory, now: Memory, a: int, b: int, c: int, d: int, x: int, vals: seq<Word>)
    requires Words(mem, x, vals) && SameOutsideBoth(mem, now, a, b, c, d)
    requires (x + 8 * |vals| <= a || b <= x) && (x + 8 * |vals| <= c || d <= x)
    ensures Words(now, x, vals)
  {
    forall i | 0 <= i < |vals| ensures Load(now, x + 8 * i) == vals[i] {
      LoadOutsideBoth(mem, now, a, b, c, d, x + 8 * i);
    }
  }

  /** One more word stored just behind. */
  lemma WordsAppend(mem: Memory, a: int, vals: seq<Word>, v: Word)
    requires Words(mem, a, vals) && Mapped(mem, a, 8 * (|vals| + 1))
    ensures Words(Store(mem, a + 8 * |vals|, v), a, vals + [v])
  {
    var end := a + 8 * |vals|;
    WordsKept(mem, Store(mem, end, v), end, end + 8, end, end, a, vals);
  }

  /** One more word stored just in front, as a push does. */
  lemma WordsPrepend(mem: Memory, a: int, vals: seq<Word>, v: Word)
    requires Words(mem, a, vals) && Mapped(mem, a - 8, 8 * (|vals| + 1))
    ensures Words(Store(mem, a - 8, v), a - 8, [v] + vals)
  {
    var now, all := Store(mem, a - 8, v), [v] + vals;
    WordsKept(mem, now, a - 8, a, a, a, a, vals);
    forall i | 0 <= i < |all| ensures Load(now, a - 8 + 8 * i) == all[i] {
      if i > 0 { assert all[i] == vals[i - 1]; }
    }
  }

  lemma LoadOutside(mem: Memory, now: Memory, lo: int, hi: int, x: int)
    requires SameOutside(mem, now, lo, hi) && Mapped(mem, x, 8) && (x + 8 <= lo || hi <= x)
    ensures Mapped(now, x, 8) && Load(now, x) == Load(mem, x)
  {
    LoadOutsideBoth(mem, now, lo, hi, lo, hi, x);
  }

  lemma WordsOutside(mem: Memory, now: Memory, lo: int, hi: int, x: int, vals: seq<Word>)
    requires Words(mem, x, vals) && SameOutside(mem, now, lo, hi) && (x + 8 * |vals| <= lo || hi <= x)
    ensures Words(now, x, vals)
  {
    WordsKept(mem, now, lo, hi, lo, hi, x, vals);
  }

  lemma WordsNone(mem: Memory, a: int, all: seq<Word>)
    requires 0 <= a <= LIMIT
    ensures Words(mem, a, all[..0]) && Words(mem, a, all[|all|..])
  {
  }

  lemma SameTrans(m0: Memory, m1: Memory, m2: Memory, lo: int, hi: int, a: int, b: int, c: int, d: int)
    requires SameOutside(m0, m1, a, b) && SameOutside(m1, m2, c, d) && lo <= a && b <= hi && lo <= c && d <= hi
    ensures SameOutside(m0, m2, lo, hi)
  {
  }

  lemma SameAsIs(mem: Memory, lo: int, hi: int)
    ensures SameOutside(mem, mem, lo, hi)
  {
  }

  lemma MappedSame(mem: Memory, now: Memory, lo: int, hi: int, a: int, n: int)
    requires SameOutside(mem, now, lo, hi) && Mapped(mem, a, n)
    ensures Mapped(now, a, n)
  {
  }

  lemma SameBoth(m0: Memory, m1: Memory, m2: Memory, a: int, b: int, c: int, d: int)
    requires SameOutside(m0, m1, a, b) && SameOutside(m1, m2, c, d)
    ensures SameOutsideBoth(m0, m2, a, b, c, d)
  {
  }
}
