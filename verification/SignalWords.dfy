/** Sets of signals and the 64-bit words that stand for them, with the bit operations on words. */
module SignalWords {
  import opened MachineWords
  import opened WordMemory

  /** A set of signal numbers, kept by the kernel as one bit each of a 64-bit word. */
  type SigSet = s: set<int> | forall k | k in s :: 1 <= k <= 64

  const EINVAL := 22

  function Encode(sigs: SigSet, k: nat): (w: nat)
    requires k <= 64
    decreases 64 - k, sigs
  {
    if k == 64 then 0 else (if k + 1 in sigs then 1 else 0) + 2 * Encode(sigs, k + 1)
  }

  function Decode(w: nat, k: nat): SigSet
    requires k <= 64
    decreases 64 - k, w
  {
    if k == 64 then {} else (if w % 2 == 1 then {k + 1} else {}) + Decode(w / 2, k + 1)
  }

  function Power2(n: nat): nat {
    if n == 0 then 1 else 2 * Power2(n - 1)
  }

  lemma {:induction false} EncodeDecode(sigs: SigSet, k: nat)
    requires k <= 64
    ensures Encode(sigs, k) < Power2(64 - k)
    ensures Decode(Encode(sigs, k), k) == set s | s in sigs && s > k
    decreases 64 - k
  {
    if k < 64 { EncodeDecode(sigs, k + 1); }
  }

  /** Conversely, a word is recovered from the set it stands for. */
  lemma {:induction false} DecodeEncode(w: nat, k: nat)
    requires k <= 64 && w < Power2(64 - k)
    ensures Encode(Decode(w, k), k) == w
    decreases 64 - k
  {
    if k < 64 {
      DecodeEncode(w / 2, k + 1);
      DecodeAbove(w / 2, k + 1);
      EncodeAbove(Decode(w, k), Decode(w / 2, k + 1), k + 1);
    }
  }

  /** Bits from `k` on depend only on the signals above `k`. */
  lemma {:induction false} EncodeAbove(sigs: SigSet, others: SigSet, k: nat)
    requires k <= 64 && forall s | s > k :: s in sigs <==> s in others
    ensures Encode(sigs, k) == Encode(others, k)
    decreases 64 - k
  {
    if k < 64 { EncodeAbove(sigs, others, k + 1); }
  }

  lemma Power64()
    ensures Power2(64) == LIMIT
  {
    Power2Sum(8, 8);
    Power2Sum(16, 16);
    Power2Sum(32, 32);
  }

  lemma {:induction false} Power2Sum(m: nat, n: nat)
    ensures Power2(m + n) == Power2(m) * Power2(n)
  {
    if m > 0 { Power2Sum(m - 1, n); }
  }

  /** The word that stands for a set of signals: bit `k - 1` for signal `k`. */
  function MaskWord(sigs: SigSet): Word {
    EncodeDecode(sigs, 0);
    Power64();
    Encode(sigs, 0)
  }

  function WordMask(w: Word): SigSet {
    Decode(w, 0)
  }

  lemma MaskRoundTrip(sigs: SigSet)
    ensures WordMask(MaskWord(sigs)) == sigs
  {
    EncodeDecode(sigs, 0);
  }

  // ---------- Bit operations on `n`-bit words ----------

  function BitOr(a: nat, b: nat, n: nat): (w: nat)
    ensures w < Power2(n)
    decreases n, a, b
  {
    if n == 0 then 0 else (if a % 2 == 1 || b % 2 == 1 then 1 else 0) + 2 * BitOr(a / 2, b / 2, n - 1)
  }

  function BitAnd(a: nat, b: nat, n: nat): (w: nat)
    ensures w < Power2(n)
    decreases n, a, b
  {
    if n == 0 then 0 else (if a % 2 == 1 && b % 2 == 1 then 1 else 0) + 2 * BitAnd(a / 2, b / 2, n - 1)
  }

  function BitNot(a: nat, n: nat): (w: nat)
    ensures w < Power2(n)
    decreases n, a
  {
    if n == 0 then 0 else (1 - a % 2) + 2 * BitNot(a / 2, n - 1)
  }

  lemma {:induction false} DecodeOr(a: nat, b: nat, k: nat)
    requires k <= 64
    ensures Decode(BitOr(a, b, 64 - k), k) == Decode(a, k) + Decode(b, k)
    decreases 64 - k
  {
    if k < 64 { DecodeOr(a / 2, b / 2, k + 1); }
  }

  lemma {:induction false} DecodeAbove(a: nat, k: nat)
    requires k <= 64
    ensures forall s | s in Decode(a, k) :: k < s <= 64
    decreases 64 - k
  {
    if k < 64 { DecodeAbove(a / 2, k + 1); }
  }

  lemma DecodeStep(w: nat, k: nat)
    requires k < 64
    ensures Decode(w, k) == (if w % 2 == 1 then {k + 1} else {}) + Decode(w / 2, k + 1)
  {
  }

  lemma AndStep(a: nat, b: nat, n: nat)
    requires n > 0
    ensures BitAnd(a, b, n) / 2 == BitAnd(a / 2, b / 2, n - 1)
    ensures BitAnd(a, b, n) % 2 == 1 <==> a % 2 == 1 && b % 2 == 1
  {
  }

  lemma {:induction false} DecodeAnd(a: nat, b: nat, k: nat)
    requires k <= 64
    ensures Decode(BitAnd(a, b, 64 - k), k) == Decode(a, k) * Decode(b, k)
    decreases 64 - k
  {
    if k < 64 {
      hide Decode, BitAnd;
      DecodeAnd(a / 2, b / 2, k + 1);
      DecodeAbove(a / 2, k + 1);
      DecodeAbove(b / 2, k + 1);
      AndStep(a, b, 64 - k);
      DecodeStep(BitAnd(a, b, 64 - k), k);
      DecodeStep(a, k);
      DecodeStep(b, k);
    }
  }

  lemma NotStep(a: nat, n: nat)
    requires n > 0
    ensures BitNot(a, n) / 2 == BitNot(a / 2, n - 1)
    ensures BitNot(a, n) % 2 == 1 <==> a % 2 == 0
  {
  }

  lemma {:induction false} DecodeNot(a: nat, k: nat)
    requires k <= 64
    ensures forall s :: s in Decode(BitNot(a, 64 - k), k) <==> k < s <= 64 && s !in Decode(a, k)
    decreases 64 - k
  {
    if k < 64 {
      hide Decode, BitNot;
      DecodeNot(a / 2, k + 1);
      DecodeAbove(a / 2, k + 1);
      NotStep(a, 64 - k);
      DecodeStep(BitNot(a, 64 - k), k);
      DecodeStep(a, k);
    } else {
      assert Decode(BitNot(a, 64 - k), k) == {};
    }
  }

  /** The word `1 << (s - 1)`, seen from bit `k` on. */
  lemma {:induction false} DecodeOne(s: nat, k: nat)
    requires k < s <= 64
    ensures Decode(Power2(s - 1 - k), k) == {s}
    decreases 64 - k
  {
    if k + 1 == s {
      DecodeZero(k + 1);
    } else {
      DecodeOne(s, k + 1);
    }
  }

  lemma {:induction false} DecodeZero(k: nat)
    requires k <= 64
    ensures Decode(0, k) == {}
    decreases 64 - k
  {
    if k < 64 { DecodeZero(k + 1); }
  }

  /** A word is zero exactly if it stands for the empty set. */
  lemma {:induction false} DecodeEmpty(a: nat, k: nat)
    requires k <= 64 && a < Power2(64 - k)
    ensures Decode(a, k) == {} <==> a == 0
    decreases 64 - k
  {
    if k < 64 {
      DecodeEmpty(a / 2, k + 1);
      DecodeAbove(a / 2, k + 1);
    }
  }

  lemma Power2Below(m: nat)
    requires m < 64
    ensures Power2(m) < LIMIT
  {
    Power64();
    Power2Sum(m, 64 - m);
    assert Power2(64 - m) >= 2 by { Power2Positive(63 - m); }
    Power2Positive(m);
    assert Power2(m) * Power2(64 - m) >= Power2(m) * 2;
  }

  lemma {:induction false} Power2Positive(m: nat)
    ensures Power2(m) >= 1
  {
    if m > 0 { Power2Positive(m - 1); }
  }
}
