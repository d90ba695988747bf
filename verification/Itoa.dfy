/** The integer printer of internal/server/middleware/auth.go, over a fixed 12-byte buffer. */
module Itoa {
  import opened Wrappers

  const MIN_INT := -0x8000_0000_0000_0000
  const MAX_INT := 0x7fff_ffff_ffff_ffff
  const BUF_LEN: nat := 12

  function Digit(d: nat): char
    requires d < 10
  {
    '0' + d as char
  }

  /** The digits of `n`, none for zero. */
  function Digits(n: nat): string {
    if n == 0 then [] else Digits(n / 10) + [Digit(n % 10)]
  }

  /** Decimal notation. */
  function Decimal(i: int): string {
    if i == 0 then "0" else if i < 0 then "-" + Digits(-i) else Digits(i)
  }

  predicate AllDigits(s: string) {
    forall i | 0 <= i < |s| :: '0' <= s[i] <= '9'
  }

  /** What a string of digits stands for. */
  function Value(s: string): nat
    requires AllDigits(s)
  {
    if s == [] then 0 else Value(s[..|s| - 1]) * 10 + (s[|s| - 1] - '0') as nat
  }

  /** The digits denote the number, without leading zeros. */
  lemma {:induction false} DigitsDenote(n: nat)
    ensures AllDigits(Digits(n)) && Value(Digits(n)) == n
    ensures n > 0 ==> Digits(n) != [] && Digits(n)[0] != '0'
  {
    if n > 0 {
      DigitsDenote(n / 10);
      assert Digits(n)[..|Digits(n)| - 1] == Digits(n / 10);
    }
  }

  function Pow10(e: nat): nat {
    if e == 0 then 1 else 10 * Pow10(e - 1)
  }

  lemma {:induction false} DigitsLength(n: nat, e: nat)
    ensures |Digits(n)| <= e <==> n < Pow10(e)
  {
    if n == 0 {
      PowPositive(e);
    } else if e > 0 {
      DigitsLength(n / 10, e - 1);
    }
  }

  lemma {:induction false} PowPositive(e: nat)
    ensures Pow10(e) > 0
  {
    if e > 0 { PowPositive(e - 1); }
  }

  lemma LastDigit(n: nat, tail: string)
    requires n > 0
    ensures Digits(n) + tail == Digits(n / 10) + ([Digit(n % 10)] + tail)
  {
  }

  /** The loop: writes the digits of `m` at the end of `buf` and gives their start, or -1 for the
      panic of indexing in front of the buffer. */
  method WriteDigits(buf: array<char>, m: nat) returns (pos: int)
    modifies buf
    ensures pos == if |Digits(m)| <= buf.Length then buf.Length - |Digits(m)| else -1
    ensures pos >= 0 ==> buf[pos..] == Digits(m)
  {
    var n := m;
    pos := buf.Length;
    while n > 0
      invariant 0 <= pos <= buf.Length
      invariant Digits(m) == Digits(n) + buf[pos..]
      decreases n
    {
      if pos == 0 {
        DigitsDenote(n);
        return -1;
      }
      pos := pos - 1;
      ghost var tail := buf[pos + 1..];
      buf[pos] := Digit(n % 10);
      assert buf[pos..] == [Digit(n % 10)] + tail;
      LastDigit(n, tail);
      n := n / 10;
    }
  }

  /** itoa on a 64-bit int; None is the panic.  The most negative int has no negation, so the loop
      writes nothing and it prints as a bare sign. */
  method Itoa(i: int) returns (r: Option<string>)
    requires MIN_INT <= i <= MAX_INT
    ensures i == MIN_INT ==> r == Some("-")
    ensures i != MIN_INT ==> r == if |Decimal(i)| <= BUF_LEN then Some(Decimal(i)) else None
  {
    if i == 0 {
      return Some("0");
    }
    var neg := i < 0;
    var n := if neg && i != MIN_INT then -i else i;
    var m := if n > 0 then n else 0;
    var buf := new char[BUF_LEN];
    var pos := WriteDigits(buf, m);
    if pos < 0 {
      return None;
    }
    if neg {
      if pos == 0 {
        return None;
      }
      pos := pos - 1;
      buf[pos] := '-';
      assert buf[pos..] == "-" + Digits(m);
      assert "-" + [] == "-";
    }
    return Some(buf[pos..]);
  }

  /** itoa prints its argument exactly for results of at most 12 characters, that is, strictly
      between -10^11 and 10^12. */
  lemma FitsIff(i: int)
    ensures |Decimal(i)| <= BUF_LEN <==> -100_000_000_000 < i < 1_000_000_000_000
  {
    if i < 0 {
      DigitsLength(-i, 11);
    } else {
      DigitsLength(i, 12);
    }
    assert Pow10(6) == 1_000_000;
    assert Pow10(11) == 100_000_000_000 && Pow10(12) == 1_000_000_000_000;
  }
}
