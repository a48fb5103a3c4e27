/** Signal sets of the mini libc: eight bytes in memory, refining finite sets of signal numbers. */
module SignalSets {
  import opened MachineWords
  import opened WordMemory
  import opened SignalWords

  const NSIG := 64

  /** The little-endian number in a run of bytes. */
  function FromBytes(bytes: seq<Byte>): (w: nat)
    ensures w < Power256(|bytes|)
  {
    if bytes == [] then 0 else (bytes[0] as int) + 0x100 * FromBytes(bytes[1..])
  }

  function ToBytes(w: nat, n: nat): (bytes: seq<Byte>)
    ensures |bytes| == n
    decreases n, w
  {
    if n == 0 then [] else [w % 0x100] + ToBytes(w / 0x100, n - 1)
  }

  lemma {:induction false} FromTo(w: nat, n: nat)
    requires w < Power256(n)
    ensures FromBytes(ToBytes(w, n)) == w
    decreases n
  {
    if n > 0 {
      FromTo(w / 0x100, n - 1);
      assert ToBytes(w, n)[1..] == ToBytes(w / 0x100, n - 1);
    }
  }

  /** Byte `k` has the weight of the `k`-th power of 256. */
  lemma {:induction false} ByteOf(bytes: seq<Byte>, k: nat)
    requires k < |bytes|
    ensures FromBytes(bytes) / Power256(k) % 0x100 == bytes[k] as int
    decreases bytes
  {
    if k > 0 {
      ByteOf(bytes[1..], k - 1);
      DivDiv(FromBytes(bytes), Power256(k - 1));
      assert FromBytes(bytes) / 0x100 == FromBytes(bytes[1..]);
    }
  }

  lemma {:induction false} FromConstant(val: Byte, n: nat)
    ensures var w := FromBytes(seq(n, _ => val));
      && (val == 0 ==> w == 0)
      && (val == 0xff ==> w == Power256(n) - 1)
  {
    if n > 0 {
      assert seq(n, _ => val)[1..] == seq(n - 1, _ => val);
      FromConstant(val, n - 1);
    }
  }

  /** The set stored in eight bytes. */
  function Stored(bytes: seq<Byte>): SigSet
    requires |bytes| == 8
  {
    Decode(FromBytes(bytes), 0)
  }

  function EverySignal(): SigSet {
    set k | 1 <= k <= 64 && Signal(k)
  }

  predicate Signal(k: int) {
    1 <= k <= 64
  }

  lemma {:induction false} DecodeFull(w: nat, k: nat)
    requires k <= 64 && w + 1 == Power2(64 - k)
    ensures forall s :: s in Decode(w, k) <==> k < s <= 64
    decreases 64 - k
  {
    if k < 64 { DecodeFull(w / 2, k + 1); }
  }

  lemma FilledWith(val: Byte, bytes: seq<Byte>)
    requires bytes == seq(8, _ => val)
    ensures val == 0 ==> Stored(bytes) == {}
    ensures val == 0xff ==> Stored(bytes) == EverySignal()
  {
    FromConstant(val, 8);
    WidthLimit();
    Power64();
    DecodeZero(0);
    DecodeFull(LIMIT - 1, 0);
  }

  method Memset(s: array<Byte>, size: nat, val: Byte)
    requires size <= s.Length
    modifies s
    ensures s[..] == seq(size, _ => val) + old(s[size..])
  {
    var i, left := 0, size;
    while left > 0
      invariant 0 <= left && i + left == size
      invariant forall k | 0 <= k < i :: s[k] == val
      invariant forall k | i <= k < s.Length :: s[k] == old(s[k])
    {
      left := left - 1;
      s[i] := val;
      i := i + 1;
    }
  }

  /** The regions are the same or do not overlap. */
  method Memcpy(s: array<Byte>, t: array<Byte>, size: nat)
    requires size <= s.Length && size <= t.Length
    modifies s
    ensures s[..] == old(t[..size]) + old(s[size..])
  {
    var i, left := 0, size;
    while left > 0
      invariant 0 <= left && i + left == size
      invariant forall k | 0 <= k < i :: s[k] == old(t[k])
      invariant forall k | i <= k < s.Length :: s[k] == old(s[k])
      invariant forall k | 0 <= k < t.Length && (s != t || i <= k) :: t[k] == old(t[k])
    {
      left := left - 1;
      s[i] := t[i];
      i := i + 1;
    }
  }

  /** `*set = w` */
  method PutWordIn(s: array<Byte>, w: Word)
    requires s.Length == 8
    modifies s
    ensures FromBytes(s[..]) == w
  {
    WidthLimit();
    FromTo(w, 8);
    var bytes, i := ToBytes(w, 8), 0;
    while i < 8
      invariant 0 <= i <= 8 && s[..i] == bytes[..i]
    {
      s[i] := bytes[i];
      i := i + 1;
    }
    assert s[..] == bytes;
  }

  /** `1 << (signum - 1)` */
  function Flag(signum: int): Word
    requires 1 <= signum <= 64
  {
    Power2Below(signum - 1);
    Power2(signum - 1)
  }

  lemma FlagAlone(s: int)
    requires 1 <= s <= 64
    ensures Decode(Flag(s), 0) == {s}
  {
    hide Decode;
    DecodeOne(s, 0);
  }

  lemma OrAdds(w: nat, s: int)
    requires 1 <= s <= 64
    ensures BitOr(w, Flag(s), 64) < LIMIT && Decode(BitOr(w, Flag(s), 64), 0) == Decode(w, 0) + {s}
  {
    hide Decode, BitOr, Flag;
    Power64();
    FlagAlone(s);
    DecodeOr(w, Flag(s), 0);
  }

  lemma AndNotRemoves(w: nat, s: int)
    requires 1 <= s <= 64
    ensures var v := BitAnd(w, BitNot(Flag(s), 64), 64); v < LIMIT && Decode(v, 0) == Decode(w, 0) - {s}
  {
    hide Decode, BitAnd, BitNot, Flag;
    Power64();
    FlagAlone(s);
    DecodeAbove(w, 0);
    DecodeNot(Flag(s), 0);
    var rest := BitNot(Flag(s), 64);
    DecodeAnd(w, rest, 0);
    var v := BitAnd(w, rest, 64);
    assert Decode(v, 0) == Decode(w, 0) * Decode(rest, 0);
    forall x ensures x in Decode(v, 0) <==> x in Decode(w, 0) && x != s {
      assert x in Decode(rest, 0) <==> 0 < x <= 64 && x !in Decode(Flag(s), 0);
    }
  }

  lemma AndTests(w: nat, s: int)
    requires 1 <= s <= 64
    ensures BitAnd(w, Flag(s), 64) != 0 <==> s in Decode(w, 0)
  {
    hide Decode, BitAnd, Flag;
    Power64();
    FlagAlone(s);
    DecodeAnd(w, Flag(s), 0);
    DecodeEmpty(BitAnd(w, Flag(s), 64), 0);
    assert Decode(w, 0) * {s} == if s in Decode(w, 0) then {s} else {};
  }

  datatype Op = Empty | Fill | Add(signum: int) | Del(signum: int)

  /** The operation on the set, as long as the arguments are accepted. */
  function Applied(op: Op, sigs: SigSet): SigSet {
    match op
    case Empty => {}
    case Fill => EverySignal()
    case Add(n) => if 1 <= n < NSIG then sigs + {n} else sigs
    case Del(n) => if 1 <= n < NSIG then sigs - {n} else sigs
  }

  function AppliedAll(ops: seq<Op>, sigs: SigSet): SigSet {
    if ops == [] then sigs else Applied(ops[|ops| - 1], AppliedAll(ops[..|ops| - 1], sigs))
  }

  predicate Puts(op: Op, k: int) {
    op.Fill? || (op.Add? && op.signum == k && k < NSIG)
  }

  predicate Takes(op: Op, k: int) {
    op.Empty? || (op.Del? && op.signum == k && k < NSIG)
  }

  /** No operation from the `i`-th on takes the signal out. */
  predicate Lasts(ops: seq<Op>, i: nat, k: int) {
    forall j | i <= j < |ops| :: !Takes(ops[j], k)
  }

  /** A signal is in the set in the end exactly if nothing takes it out after the last operation
      that puts it in, or after the start if it was in then. */
  lemma {:induction false} AppliedLast(ops: seq<Op>, sigs: SigSet, k: int)
    requires 1 <= k <= 64
    ensures k in AppliedAll(ops, sigs) <==>
      || (k in sigs && Lasts(ops, 0, k))
      || exists i :: 0 <= i < |ops| && Puts(ops[i], k) && Lasts(ops, i + 1, k)
    decreases |ops|
  {
    if ops != [] {
      var n := |ops| - 1;
      AppliedLast(ops[..n], sigs, k);
      assert k in EverySignal() by { assert Signal(k); }
      assert k in AppliedAll(ops, sigs) <==> Puts(ops[n], k) || (k in AppliedAll(ops[..n], sigs) && !Takes(ops[n], k));
      forall i: nat | i <= n
        ensures Lasts(ops, i, k) <==> Lasts(ops[..n], i, k) && !Takes(ops[n], k)
      {
        LastsOne(ops, i, k);
      }
      if Puts(ops[n], k) { assert Lasts(ops, n + 1, k); }
      if i :| 0 <= i < n && Puts(ops[..n][i], k) && Lasts(ops[..n], i + 1, k) { assert Puts(ops[i], k); }
      if i :| 0 <= i < |ops| && Puts(ops[i], k) && Lasts(ops, i + 1, k) {
        if i < n { assert Puts(ops[..n][i], k); }
      }
    }
  }

  lemma LastsOne(ops: seq<Op>, i: nat, k: int)
    requires i < |ops|
    ensures Lasts(ops, i, k) <==> Lasts(ops[..|ops| - 1], i, k) && !Takes(ops[|ops| - 1], k)
  {
    var n := |ops| - 1;
    if Lasts(ops[..n], i, k) && !Takes(ops[n], k) {
      forall j | i <= j < |ops| ensures !Takes(ops[j], k) {
        if j < n { assert ops[..n][j] == ops[j]; }
      }
    }
    if Lasts(ops, i, k) {
      forall j | i <= j < n ensures !Takes(ops[..n][j], k) {
        assert ops[..n][j] == ops[j];
      }
    }
  }

  class Sets {
    var errno: int

    predicate IsSet(s: array?<Byte>)
      reads this
    {
      s != null ==> s.Length == 8
    }

    ghost function Of(s: array<Byte>): SigSet
      requires s.Length == 8
      reads s
    {
      Stored(s[..])
    }

    /** `size` is the size of a pointer, which is also the size of a set. */
    method SigEmptySet(s: array?<Byte>) returns (ret: int)
      requires IsSet(s)
      modifies this, s
      ensures s == null ==> ret == -1 && errno == EINVAL
      ensures s != null ==> ret == 0 && errno == old(errno) && Of(s) == {}
    {
      if s == null {
        errno := EINVAL;
        return -1;
      }
      Memset(s, 8, 0x0);
      FilledWith(s[0], s[..]);
      return 0;
    }

    method SigFillSet(s: array?<Byte>) returns (ret: int)
      requires IsSet(s)
      modifies this, s
      ensures s == null ==> ret == -1 && errno == EINVAL
      ensures s != null ==> ret == 0 && errno == old(errno) && Of(s) == EverySignal()
    {
      if s == null {
        errno := EINVAL;
        return -1;
      }
      Memset(s, 8, 0xff);
      FilledWith(s[0], s[..]);
      return 0;
    }

    method SigAddSet(s: array?<Byte>, signum: int) returns (ret: int)
      requires IsSet(s) && signum >= 1
      modifies this, s
      ensures s == null || signum >= NSIG ==> ret == -1 && errno == EINVAL && (s != null ==> s[..] == old(s[..]))
      ensures s != null && signum < NSIG ==> ret == 0 && errno == old(errno) && Of(s) == old(Of(s)) + {signum}
    {
      hide Flag, Decode, BitOr, BitAnd, BitNot, FromBytes;
      if s == null || signum >= NSIG {
        errno := EINVAL;
        return -1;
      }
      var i := Flag(signum);
      OrAdds(FromBytes(s[..]), signum);
      PutWordIn(s, BitOr(FromBytes(s[..]), i, 64));
      return 0;
    }

    method SigDelSet(s: array?<Byte>, signum: int) returns (ret: int)
      requires IsSet(s) && signum >= 1
      modifies this, s
      ensures s == null || signum >= NSIG ==> ret == -1 && errno == EINVAL && (s != null ==> s[..] == old(s[..]))
      ensures s != null && signum < NSIG ==> ret == 0 && errno == old(errno) && Of(s) == old(Of(s)) - {signum}
    {
      hide Flag, Decode, BitOr, BitAnd, BitNot, FromBytes;
      if s == null || signum >= NSIG {
        errno := EINVAL;
        return -1;
      }
      var i := BitNot(Flag(signum), 64);
      AndNotRemoves(FromBytes(s[..]), signum);
      PutWordIn(s, BitAnd(FromBytes(s[..]), i, 64));
      return 0;
    }

    method SigIsMember(s: array?<Byte>, signum: int) returns (ret: int)
      requires IsSet(s) && signum >= 1
      modifies this
      ensures s == null || signum >= NSIG ==> ret == -1 && errno == EINVAL
      ensures s != null && signum < NSIG ==> errno == old(errno) && ret == (if signum in Of(s) then 1 else 0)
    {
      hide Flag, Decode, BitOr, BitAnd, BitNot, FromBytes;
      if s == null || signum >= NSIG {
        errno := EINVAL;
        return -1;
      }
      var i := Flag(signum);
      AndTests(FromBytes(s[..]), signum);
      if BitAnd(FromBytes(s[..]), i, 64) != 0 {
        return 1;
      } else {
        return 0;
      }
    }

    /** Any sequence of operations on one set leaves it standing for the abstract result. */
    method Apply(s: array<Byte>, ops: seq<Op>)
      requires s.Length == 8 && forall op | op in ops && (op.Add? || op.Del?) :: op.signum >= 1
      modifies this, s
      ensures Of(s) == AppliedAll(ops, old(Of(s)))
    {
      hide Flag, Decode, BitOr, BitAnd, BitNot, FromBytes;
      var k := 0;
      while k < |ops|
        invariant 0 <= k <= |ops| && Of(s) == AppliedAll(ops[..k], old(Of(s)))
      {
        assert ops[..k + 1][..k] == ops[..k];
        assert ops[k] in ops;
        match ops[k] {
          case Empty => var _ := SigEmptySet(s);
          case Fill => var _ := SigFillSet(s);
          case Add(n) => var _ := SigAddSet(s, n);
          case Del(n) => var _ := SigDelSet(s, n);
        }
        k := k + 1;
      }
      assert ops[..k] == ops;
    }
  }
}
