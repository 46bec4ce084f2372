/**
 The decimal printers of the simulation harnesses.  Each one fills a fixed buffer; none leaves
 it, and all of them emit the decimal notation of their argument.
 */
module Decimal {

  function Digit(d: nat): char
    requires d < 10
  {
    '0' + d as char
  }

  /** The decimal notation of `n`, without leading zeros. */
  function Notation(n: nat): (s: string)
    ensures s != []
  {
    if n < 10 then [Digit(n)] else Notation(n / 10) + [Digit(n % 10)]
  }

  ghost predicate IsDigits(s: string) {
    forall i | 0 <= i < |s| :: '0' <= s[i] <= '9'
  }

  /** The positional value of a string of digits. */
  function ValueOf(s: string): int {
    if s == [] then 0 else ValueOf(s[..|s| - 1]) * 10 + (s[|s| - 1] as int - '0' as int)
  }

  lemma {:induction false} NotationValue(n: nat)
    ensures IsDigits(Notation(n)) && ValueOf(Notation(n)) == n
    ensures Notation(n)[0] == '0' <==> n == 0
  {
    if n >= 10 {
      NotationValue(n / 10);
      var s := Notation(n);
      assert s[..|s| - 1] == Notation(n / 10);
    } else {
      assert Notation(n)[..0] == [];
    }
  }

  lemma {:induction false} ValueNonNegative(s: string)
    requires IsDigits(s)
    ensures ValueOf(s) >= 0
    ensures s != [] && s[0] != '0' ==> ValueOf(s) > 0
  {
    if s == [] {
    } else {
      ValueNonNegative(s[..|s| - 1]);
    }
  }

  /** Digits without a leading zero are the notation of their value: the printers have no choice. */
  lemma {:induction false} NotationUnique(s: string)
    requires IsDigits(s) && s != [] && (s[0] != '0' || |s| == 1)
    ensures ValueOf(s) >= 0 && Notation(ValueOf(s)) == s
  {
    ValueNonNegative(s);
    var front, d := s[..|s| - 1], s[|s| - 1] as int - '0' as int;
    if |s| == 1 {
      assert ValueOf(front) == 0;
    } else {
      NotationUnique(front);
      ValueNonNegative(front);
      assert ValueOf(s) / 10 == ValueOf(front) && ValueOf(s) % 10 == d;
    }
    assert s == front + [s[|s| - 1]];
  }

  function Pow10(k: nat): nat {
    if k == 0 then 1 else 10 * Pow10(k - 1)
  }

  /** A number below 10^k has at most k digits. */
  lemma {:induction false} NotationLength(n: nat, k: nat)
    requires k > 0 && n < Pow10(k)
    ensures |Notation(n)| <= k
  {
    if n >= 10 {
      NotationLength(n / 10, k - 1);
    }
  }

  const U64: int := 0x1_0000_0000_0000_0000
  const U32: int := 0x1_0000_0000

  lemma WordLengths(n: nat)
    ensures n < U64 ==> |Notation(n)| <= 20
    ensures n < U32 ==> |Notation(n)| <= 10
  {
    assert Pow10(5) == 100000;
    assert Pow10(10) == 100000 * Pow10(5);
    assert Pow10(15) == 100000 * Pow10(10);
    assert Pow10(20) == 100000 * Pow10(15);
    if n < U64 {
      NotationLength(n, 20);
    }
    if n < U32 {
      NotationLength(n, 10);
    }
  }

  lemma NoNul(n: nat)
    ensures '\0' !in Notation(n)
  {
    NotationValue(n);
  }

  /** Emits the characters of `buf` from `start` up to the terminating NUL at `nul`. */
  method PrintStr(buf: array<char>, start: nat, ghost nul: nat) returns (out: string)
    requires start <= nul < buf.Length && buf[nul] == '\0' && '\0' !in buf[start..nul]
    ensures out == buf[start..nul]
  {
    var i := start;
    out := "";
    while buf[i] != '\0'
      invariant start <= i <= nul && out == buf[start..i]
      decreases nul - i
    {
      assert i < nul;
      out := out + [buf[i]];
      i := i + 1;
    }
  }

  lemma NotationZero()
    ensures Notation(0) == ['0']
  {
  }

  /** What is left to write, and what has been written from the end of the buffer. */
  ghost predicate Filling(n0: nat, n: nat, written: string) {
    Notation(n0) == if n == 0 then written else Notation(n) + written
  }

  lemma FillEnds(n0: nat, written: string)
    ensures Filling(n0, 0, written) <==> written == Notation(n0)
    ensures n0 > 0 ==> Filling(n0, n0, "")
  {
    assert Notation(n0) + "" == Notation(n0);
  }

  lemma FillStep(n0: nat, n: nat, written: string)
    requires n > 0 && Filling(n0, n, written)
    ensures Filling(n0, n / 10, [Digit(n % 10)] + written)
    ensures |written| < |Notation(n0)|
  {
    if n >= 10 {
      assert Notation(n) + written == Notation(n / 10) + ([Digit(n % 10)] + written);
    }
  }

  /** A store in front of a stretch of the buffer puts a character in front of it. */
  lemma Prepended(before: string, i: nat, end: nat, c: char)
    requires i < end <= |before|
    ensures before[i := c][i..end] == [c] + before[i + 1..end]
  {
  }

  /** One digit more at the front of what is written up to `end`. */
  lemma DigitStored(n0: nat, n: nat, written: string, was: string, i: nat, end: nat)
    requires n > 0 && Filling(n0, n, written) && i < end <= |was| && was[i + 1..end] == written
    ensures var now := was[i := Digit(n % 10)];
            now[i..end] == [Digit(n % 10)] + written && now[end..] == was[end..]
            && Filling(n0, n / 10, now[i..end]) && |now[i..end]| == |written| + 1 <= |Notation(n0)|
  {
    FillStep(n0, n, written);
    Prepended(was, i, end, Digit(n % 10));
  }

  /** `print_dec` with a buffer of `size` characters, filled from the back. */
  method PrintDec(n0: nat, size: nat) returns (out: string)
    requires |Notation(n0)| + 2 <= size
    ensures out == Notation(n0)
  {
    hide *;
    NotationZero();
    FillEnds(n0, "");
    var buf := new char[size];
    var n: nat := n0;
    var i := size - 2;
    buf[size - 1] := '\0';
    ghost var written := "";
    ghost var was := buf[..];
    if n == 0 {
      buf[i] := '0';
      Prepended(was, i, size - 1, '0');
      written := ['0'];
      i := i - 1;
    } else {
      while n > 0
        invariant i == size - 2 - |written| && |written| <= |Notation(n0)| && buf[size - 1] == '\0'
        invariant buf[..][i + 1..size - 1] == written && Filling(n0, n, written)
      {
        DigitStored(n0, n, written, buf[..], i, size - 1);
        was := buf[..];
        buf[i] := Digit(n % 10);
        assert buf[..] == was[i := Digit(n % 10)];
        written := buf[..][i..size - 1];
        i := i - 1;
        n := n / 10;
      }
      FillEnds(n0, written);
    }
    assert written == Notation(n0);
    NoNul(n0);
    out := PrintStr(buf, i + 1, size - 1);
  }

  /** harness.c: 64 bits through a 24-byte buffer. */
  method PrintDec64(n: nat) returns (out: string)
    requires n < U64
    ensures out == Notation(n)
  {
    WordLengths(n);
    out := PrintDec(n, 24);
  }

  /** harness_t1.c: 32 bits through a 12-byte buffer. */
  method PrintDec32(n: nat) returns (out: string)
    requires n < U32
    ensures out == Notation(n)
  {
    WordLengths(n);
    out := PrintDec(n, 12);
  }

  /** harness_gem5.c: an explicit length; the test on `pos` never cuts the number short. */
  method WriteDec(n0: nat) returns (out: string)
    requires n0 < U64
    ensures out == Notation(n0)
  {
    hide Notation, Filling, Digit, Pow10;
    WordLengths(n0);
    NotationZero();
    FillEnds(n0, "");
    var buf := new char[32];
    var value: nat := n0;
    var pos := 30;
    buf[31] := '\0';
    ghost var written := "";
    ghost var was := buf[..];
    if value == 0 {
      buf[pos] := '0';
      Prepended(was, pos, 31, '0');
      written := ['0'];
      pos := pos - 1;
    } else {
      while value > 0 && pos >= 0
        invariant pos == 30 - |written| && |written| <= |Notation(n0)|
        invariant buf[..][pos + 1..31] == written && Filling(n0, value, written)
        decreases value
      {
        DigitStored(n0, value, written, buf[..], pos, 31);
        was := buf[..];
        buf[pos] := Digit(value % 10);
        assert buf[..] == was[pos := Digit(value % 10)];
        written := buf[..][pos..31];
        pos := pos - 1;
        value := value / 10;
      }
      FillEnds(n0, written);
    }
    assert written == Notation(n0);
    out := buf[pos + 1..pos + 1 + (30 - pos)];
  }

  /** harness_xiangshan.c: digits stored forwards in a 20-byte buffer and emitted in reverse. */
  method UartPrintU64(val: nat) returns (out: string)
    requires val < U64
    ensures out == Notation(val)
  {
    hide Notation, Filling, Digit, Pow10;
    WordLengths(val);
    NotationZero();
    FillEnds(val, "");
    if val == 0 {
      return "0";
    }
    var buf := new char[20];
    var n: nat := val;
    var i := 0;
    ghost var written := "";
    while n > 0
      invariant 0 <= i == |written| <= |Notation(val)| <= 20
      invariant forall k | 0 <= k < i :: buf[k] == written[i - 1 - k]
      invariant Filling(val, n, written)
    {
      FillStep(val, n, written);
      buf[i] := Digit(n % 10);
      written := [Digit(n % 10)] + written;
      i := i + 1;
      n := n / 10;
    }
    FillEnds(val, written);
    out := "";
    i := i - 1;
    while i >= 0
      invariant -1 <= i < |written| && out == written[..|written| - 1 - i]
    {
      out := out + [buf[i]];
      i := i - 1;
    }
  }
}
