/** Decimal printing of 64-bit integers, digit by digit into a buffer from its end. */
module Decimal {

  const MIN_INT64: int := -0x8000_0000_0000_0000
  const MAX_INT64: int := 0x7fff_ffff_ffff_ffff

  function Digit(d: nat): (c: char)
    requires d < 10
    ensures '0' <= c <= '9' && c as int - '0' as int == d
  {
    ('0' as int + d) as char
  }

  function Digits(n: nat): (s: string)
    ensures s != "" && forall c <- s :: '0' <= c <= '9'
  {
    if n < 10 then [Digit(n)] else Digits(n / 10) + [Digit(n % 10)]
  }

  function Print(n: int): string
  {
    if n < 0 then "-" + Digits(-n) else Digits(n)
  }

  /** The value of a digit string. */
  function Value(s: string): int
  {
    if s == "" then 0 else Value(s[..|s| - 1]) * 10 + (s[|s| - 1] as int - '0' as int)
  }

  function Parse(s: string): int
  {
    if s != "" && s[0] == '-' then -Value(s[1..]) else Value(s)
  }

  lemma {:induction false} ValueOfDigits(n: nat)
    ensures Value(Digits(n)) == n
  {
    if n < 10 {
      assert Digits(n)[..0] == "";
    } else {
      ValueOfDigits(n / 10);
      assert Digits(n)[..|Digits(n)| - 1] == Digits(n / 10);
    }
  }

  /** Printing loses nothing, so it is injective. */
  lemma ParsePrint(n: int)
    ensures Parse(Print(n)) == n
  {
    if n < 0 {
      ValueOfDigits(-n);
      assert Print(n)[1..] == Digits(-n);
    } else {
      ValueOfDigits(n);
      assert Digits(n)[0] in Digits(n);
    }
  }

  function Pow10(k: nat): (p: nat)
    ensures p >= 1
  {
    if k == 0 then 1 else 10 * Pow10(k - 1)
  }

  lemma Nineteen()
    ensures MAX_INT64 + 1 < Pow10(19)
  {
    assert Pow10(4) == 10000;
    assert Pow10(8) == 100000000;
    assert Pow10(12) == 1000000000000;
    assert Pow10(16) == 10000000000000000;
  }

  /** Two's complement negation. */
  function Negate64(n: int): int
  {
    if n == MIN_INT64 then MIN_INT64 else -n
  }

  /** Moving the last digit of `n` in front of what is already written. */
  lemma PeelDigit(whole: string, n: nat, tail: string)
    requires whole == Digits(n) + tail
    ensures whole == if n < 10 then [Digit(n % 10)] + tail else Digits(n / 10) + ([Digit(n % 10)] + tail)
  {
  }

  lemma WriteFront(before: seq<char>, i: nat, c: char, after: seq<char>)
    requires i < |before| && after == before[i := c]
    ensures after[i..] == [c] + before[i + 1..]
  {
  }

  /** The buffer holds the last digits of `whole` from `i` on; those of `n` are still to come, and there is room for
      them and a sign. */
  predicate Written(whole: string, n: int, buf: seq<char>, i: nat)
  {
    && 1 <= i <= |buf| && n < Pow10(i - 1)
    && whole == (if n > 0 then Digits(n) else "") + buf[i..]
  }

  lemma NothingWritten(n: int, buf: seq<char>, i: nat)
    requires n <= MAX_INT64 + 1 && i == |buf| == 20
    ensures Written(if n > 0 then Digits(n) else "", n, buf, i)
  {
    Nineteen();
    assert buf[20..] == "";
  }

  lemma AllWritten(whole: string, n: int, buf: seq<char>, i: nat)
    requires n <= 0 && Written(whole, n, buf, i)
    ensures 1 <= i <= |buf| && buf[i..] == whole
  {
  }

  lemma WriteDigit(whole: string, n: nat, before: seq<char>, i: nat)
    requires n > 0 && Written(whole, n, before, i)
    ensures i >= 2 && Written(whole, n / 10, before[i - 1 := Digit(n % 10)], i - 1)
  {
    assert i >= 2;
    PeelDigit(whole, n, before[i..]);
    WriteFront(before, i - 1, Digit(n % 10), before[i - 1 := Digit(n % 10)]);
  }

  method Itoa(n0: int) returns (s: string)
    requires MIN_INT64 <= n0 <= MAX_INT64
    ensures s == if n0 == MIN_INT64 then "-" else Print(n0)
  {
    var n := n0;
    if n == 0 {
      return "0";
    }
    var neg := n < 0;
    if neg {
      n := Negate64(n);
    }
    ghost var whole := if n > 0 then Digits(n) else "";
    var buf := new char[20];
    var i := 20;
    NothingWritten(n, buf[..], i);
    while n > 0
      invariant i <= 20 && Written(whole, n, buf[..], i)
    {
      WriteDigit(whole, n, buf[..], i);
      i := i - 1;
      buf[i] := Digit(n % 10);
      n := n / 10;
    }
    AllWritten(whole, n, buf[..], i);
    if neg {
      ghost var before := buf[..];
      i := i - 1;
      buf[i] := '-';
      WriteFront(before, i, '-', buf[..]);
      assert buf[..][i..] == buf[i..];
    }
    s := buf[i..];
  }
}
