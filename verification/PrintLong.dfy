/** Decimal output of a 64-bit integer: digits produced backwards, then reversed in place. */
module PrintLong {

  const LLONG_LIMIT := 0x8000_0000_0000_0000

  function Digit(d: int): char
    requires 0 <= d < 10
  {
    ('0' as int + d) as char
  }

  predicate IsDigit(c: char) {
    '0' <= c <= '9'
  }

  predicate AllDigits(ds: string) {
    forall i | 0 <= i < |ds| :: IsDigit(ds[i])
  }

  /** The value of a run of digits, most significant first. */
  function Value(ds: string): nat
    requires AllDigits(ds)
  {
    if ds == [] then 0 else 10 * Value(ds[..|ds| - 1]) + (ds[|ds| - 1] as int - '0' as int)
  }

  /** Digits of a number, none for zero. */
  function Digits(x: nat): string {
    if x == 0 then "" else Digits(x / 10) + [Digit(x % 10)]
  }

  function Power10(n: nat): nat {
    if n == 0 then 1 else 10 * Power10(n - 1)
  }

  function Reverse(s: string): string {
    seq(|s|, i requires 0 <= i < |s| => s[|s| - 1 - i])
  }

  lemma DigitChar(d: int)
    requires 0 <= d < 10
    ensures IsDigit(Digit(d)) && Digit(d) as int - '0' as int == d && (Digit(d) == '0' <==> d == 0)
  {
  }

  lemma AppendDigit(ds: string, d: int)
    requires AllDigits(ds) && 0 <= d < 10
    ensures AllDigits(ds + [Digit(d)]) && Value(ds + [Digit(d)]) == 10 * Value(ds) + d
  {
  }

  lemma {:induction false} DigitsValue(x: nat)
    ensures AllDigits(Digits(x))
    ensures Value(Digits(x)) == x
    ensures x > 0 ==> |Digits(x)| > 0 && Digits(x)[0] != '0'
  {
    hide Value, Digit;
    if x > 0 {
      DigitsValue(x / 10);
      AppendDigit(Digits(x / 10), x % 10);
      DigitChar(x % 10);
    } else {
      NoDigits();
    }
  }

  lemma NoDigits()
    ensures Value("") == 0
  {
  }

  lemma {:induction false} DigitsShort(x: nat, n: nat)
    requires x < Power10(n)
    ensures |Digits(x)| <= n
  {
    if x > 0 { DigitsShort(x / 10, n - 1); }
  }

  lemma NineteenDigits(x: nat)
    requires x < LLONG_LIMIT
    ensures |Digits(x)| <= 19
  {
    assert Power10(9) == 1_000_000_000;
    assert Power10(14) == 100_000 * Power10(9);
    assert Power10(19) == 100_000 * Power10(14);
    DigitsShort(x, 19);
  }

  /** Digits without a leading zero are determined by their value. */
  lemma {:induction false} DigitsUnique(ds: string)
    requires AllDigits(ds) && (ds != [] ==> ds[0] != '0')
    ensures ds == Digits(Value(ds))
  {
    if ds != [] {
      var init, last := ds[..|ds| - 1], ds[|ds| - 1];
      DigitsUnique(init);
      DigitsValue(Value(init));
      if Value(init) == 0 { assert init == []; }
    }
  }

  /** `text` is `x` in decimal and a newline: a sign only if negative, and no leading zero. */
  predicate IsDecimalLine(text: string, x: int) {
    if x < 0 then |text| > 0 && text[0] == '-' && IsNaturalLine(text[1..], -x)
    else IsNaturalLine(text, x)
  }

  predicate IsNaturalLine(text: string, x: nat) {
    && |text| >= 2 && text[|text| - 1] == '\n'
    && var ds := text[..|text| - 1];
       AllDigits(ds) && Value(ds) == x && (ds[0] == '0' ==> |ds| == 1)
  }

  lemma SignShown(text: string, x: int)
    requires IsDecimalLine(text, x)
    ensures |text| > 0 && (text[0] == '-' <==> x < 0)
  {
  }

  /** There is one such line for each number, and each such line is of one number. */
  lemma DecimalLineUnique(s: string, t: string, x: int, y: int)
    requires IsDecimalLine(s, x) && IsDecimalLine(t, y)
    ensures s == t <==> x == y
  {
    SignShown(s, x);
    SignShown(t, y);
    if x < 0 && y < 0 {
      NaturalLineUnique(s[1..], t[1..], -x, -y);
      assert s == [s[0]] + s[1..] && t == [t[0]] + t[1..];
    } else if x >= 0 && y >= 0 {
      NaturalLineUnique(s, t, x, y);
    }
  }

  lemma NaturalLineUnique(s: string, t: string, x: nat, y: nat)
    requires IsNaturalLine(s, x) && IsNaturalLine(t, y)
    ensures s == t <==> x == y
  {
    var d, e := s[..|s| - 1], t[..|t| - 1];
    assert s == d + [s[|s| - 1]] && t == e + [t[|t| - 1]];
    if x == y {
      OneDigitOrNoZero(d);
      OneDigitOrNoZero(e);
    }
  }

  lemma OneDigitOrNoZero(d: string)
    requires d != [] && AllDigits(d) && (d[0] == '0' ==> |d| == 1)
    ensures d == if Value(d) == 0 then "0" else Digits(Value(d))
  {
    if d[0] == '0' {
      assert d == "0" && d[..0] == [];
    } else {
      DigitsUnique(d);
    }
  }

  lemma ReverseAppend(s: string, c: char)
    ensures Reverse(s + [c]) == [c] + Reverse(s)
  {
  }

  method ReverseInPlace(buf: array<char>, l: nat)
    requires l <= buf.Length
    modifies buf
    ensures buf[..l] == Reverse(old(buf[..l]))
  {
    var i := 0;
    while i < l / 2
      invariant 0 <= i <= l / 2
      invariant forall k | 0 <= k < i :: buf[k] == old(buf[l - 1 - k]) && buf[l - 1 - k] == old(buf[k])
      invariant forall k | i <= k < l - i :: buf[k] == old(buf[k])
    {
      var tmp := buf[i];
      buf[i] := buf[l - i - 1];
      buf[l - i - 1] := tmp;
      i := i + 1;
    }
  }

  /** Lines 14-18: the digits of `x0`, least significant first. */
  method Produce(buf: array<char>, x0: nat) returns (l: nat)
    requires x0 < LLONG_LIMIT && buf.Length == 100
    modifies buf
    ensures l == |Digits(x0)| <= 19 && Reverse(buf[..l]) == Digits(x0)
  {
    var x := x0;
    l := 0;
    NineteenDigits(x0);
    while x != 0
      invariant l + |Digits(x)| == |Digits(x0)|
      invariant Digits(x) + Reverse(buf[..l]) == Digits(x0)
      decreases x
    {
      ReverseAppend(buf[..l], Digit(x % 10));
      ghost var was := buf[..l];
      buf[l] := ('0' as int + x % 10) as char;
      assert buf[..l + 1] == was + [Digit(x % 10)];
      x := x / 10;
      l := l + 1;
    }
  }

  lemma ZeroLine()
    ensures IsDecimalLine("0\n", 0)
  {
  }

  lemma DigitsLine(sign: string, x: int)
    requires x != 0 && sign == if x < 0 then "-" else ""
    ensures IsDecimalLine(sign + (Digits(if x < 0 then -x else x) + "\n"), x)
  {
    var n := if x < 0 then -x else x;
    var line := Digits(n) + "\n";
    DigitsValue(n);
    assert line[..|line| - 1] == Digits(n);
    assert sign + line == if x < 0 then ['-'] + line else line;
  }

  /** Negating the smallest 64-bit integer overflows, so it is not an argument. */
  method PrintLong(x0: int) returns (out: string)
    requires -LLONG_LIMIT < x0 < LLONG_LIMIT
    ensures IsDecimalLine(out, x0) && |out| <= 21
  {
    hide Digits, IsDecimalLine, Reverse;
    out := "";
    var x := x0;
    if x < 0 {
      out := out + "-";
      x := -x;
    }
    var buf := new char[100];
    if x == 0 {
      ZeroLine();
      out := out + "0\n";
      assert out == "0\n";
      return;
    }
    var l := Produce(buf, x);
    ReverseInPlace(buf, l);
    buf[l] := '\n';
    DigitsLine(out, x0);
    assert buf[..l + 1] == Digits(x) + "\n";
    out := out + buf[..l + 1];
  }
}
