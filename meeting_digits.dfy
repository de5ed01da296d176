/**
 * Decimal digits: `nthdigit` of the meeting-cost display, the digit
 * characters and NUL-cleared buffers both firmware images key in, the
 * numeral such a buffer denotes (what `atoi` reads from it), and the facts
 * tying them together.
 */
module MeetingDigits {

  /** The values of a C `uint32_t`. */
  type uint32 = x: nat | x < 0x1_0000_0000

  /** `10` to the power `n`. */
  function Pow10(n: nat): (p: nat)
    ensures p >= 1
  {
    if n == 0 then 1 else 10 * Pow10(n - 1)
  }

  /** Decimal digit `n` of `x`, counted from the units digit. */
  function Digit(x: nat, n: nat): nat {
    x / Pow10(n) % 10
  }

  /** Dividing by `10^n` and then by ten is dividing by `10^(n+1)`. */
  lemma DivTen(x: nat, n: nat)
    ensures x / Pow10(n) / 10 == x / Pow10(n + 1)
  {
    var p := Pow10(n);
    var q, r := x / p, x % p;
    var q', r' := q / 10, q % 10;
    assert x == q * p + r;
    assert q * p == q' * (10 * p) + r' * p by {
      assert q == q' * 10 + r';
      Distrib(q' * 10, r', p);
      assert q' * 10 * p == q' * (10 * p);
    }
    MulMono(r', 9, p);
    DivUnique(x, 10 * p, q', r' * p + r);
  }

  /** The quotient is the only `q` with `x == q * d + r` and `0 <= r < d`. */
  lemma DivUnique(x: nat, d: nat, q: nat, r: nat)
    requires 0 <= r < d && x == q * d + r
    ensures x / d == q
  {
    var q0, r0 := x / d, x % d;
    assert x == q0 * d + r0;
    if q0 < q {
      MulMono(q0 + 1, q, d);
    } else if q < q0 {
      MulMono(q + 1, q0, d);
    }
  }

  /** Multiplication distributes over addition. */
  lemma Distrib(a: nat, b: nat, c: nat)
    ensures (a + b) * c == a * c + b * c
  {
  }

  /** Multiplying by a natural number keeps the order. */
  lemma MulMono(a: nat, b: nat, d: nat)
    requires a <= b
    ensures a * d <= b * d
  {
    var e := b - a;
    assert b * d == a * d + e * d;
  }

  /** Digit `n + 1` of `x` is digit `n` of `x / 10`. */
  lemma DigitShift(x: nat, n: nat)
    ensures Digit(x, n + 1) == Digit(x / 10, n)
  {
    DivTen(x, n);
    DivSwap(x, n);
  }

  /** Dividing by ten and by `10^n` commute. */
  lemma {:induction false} DivSwap(x: nat, n: nat)
    ensures x / Pow10(n) / 10 == x / 10 / Pow10(n)
  {
    if n > 0 {
      DivSwap(x, n - 1);
      DivTen(x, n - 1);
      DivTen(x / 10, n - 1);
    }
  }

  /**
   * `nthdigit`: divide by ten `n` times, then keep the units digit. The
   * result is decimal digit `n` of `x`, a value 0 to 9.
   */
  method NthDigit(x: uint32, n: nat) returns (d: nat)
    ensures d == Digit(x, n) && d < 10
  {
    var y := x;
    var m := n;
    while m > 0
      invariant 0 <= m <= n
      invariant y == x / Pow10(n - m)
    {
      DivTen(x, n - m);
      y := y / 10;
      m := m - 1;
    }
    d := y % 10;
  }

  /** The number written by the decimal digits `ds`, most significant first. */
  function Numeral(ds: seq<nat>): nat {
    if ds == [] then 0 else Numeral(ds[..|ds| - 1]) * 10 + ds[|ds| - 1]
  }

  /** Whether every entry of `ds` is a decimal digit. */
  predicate AllDigits(ds: seq<nat>) {
    forall i :: 0 <= i < |ds| ==> ds[i] < 10
  }

  /** A numeral of `k` digits is below `10^k`. */
  lemma {:induction false} NumeralBound(ds: seq<nat>)
    requires AllDigits(ds)
    ensures Numeral(ds) < Pow10(|ds|)
  {
    if ds != [] {
      var init := ds[..|ds| - 1];
      NumeralBound(init);
      assert Numeral(init) * 10 + 9 < Pow10(|init|) * 10 by {
        assert Numeral(init) + 1 <= Pow10(|init|);
      }
    }
  }

  /**
   * The digits of a numeral are the digits written, right-justified: digit
   * `e` counted from the units is entry `|ds| - 1 - e`, and every digit
   * beyond the written ones is 0.
   */
  lemma {:induction false} DigitOfNumeral(ds: seq<nat>, e: nat)
    requires AllDigits(ds)
    ensures Digit(Numeral(ds), e) == if e < |ds| then ds[|ds| - 1 - e] else 0
  {
    if ds == [] {
      assert Numeral(ds) == 0;
    } else {
      var init, last := ds[..|ds| - 1], ds[|ds| - 1];
      var v := Numeral(ds);
      assert v == Numeral(init) * 10 + last;
      DivUnique(v, 10, Numeral(init), last);
      if e == 0 {
        assert v / Pow10(0) == v;
      } else {
        DigitShift(v, e - 1);
        DigitOfNumeral(init, e - 1);
      }
    }
  }

  /** The `k` low decimal digits of `x`, most significant first (`x` zero-padded to `k` places). */
  function DigitsMsb(x: nat, k: nat): (ds: seq<nat>)
    ensures |ds| == k
  {
    seq(k, i requires 0 <= i < k => Digit(x, k - 1 - i))
  }

  /** Writing down the `k` low digits of `x` gives back `x` modulo `10^k`. */
  lemma {:induction false} Reassemble(x: nat, k: nat)
    ensures Numeral(DigitsMsb(x, k)) == x % Pow10(k)
  {
    if k > 0 {
      var ds := DigitsMsb(x, k);
      assert ds[..k - 1] == DigitsMsb(x / 10, k - 1) by {
        forall i | 0 <= i < k - 1
          ensures ds[i] == DigitsMsb(x / 10, k - 1)[i]
        {
          DigitShift(x, k - 2 - i);
        }
      }
      Reassemble(x / 10, k - 1);
      assert ds[k - 1] == Digit(x, 0);
      assert Digit(x, 0) == x % 10 by {
        assert Pow10(0) == 1;
      }
      ModTen(x, Pow10(k - 1));
    }
  }

  /** Splitting off the units digit: `x mod 10p` is `(x / 10 mod p) * 10 + x mod 10`. */
  lemma ModTen(x: nat, p: nat)
    requires p >= 1
    ensures x % (10 * p) == x / 10 % p * 10 + x % 10
  {
    var q := x / 10;
    var a, b := q / p, q % p;
    assert x == (a * p + b) * 10 + x % 10;
    assert x == a * (10 * p) + (b * 10 + x % 10);
    assert b * 10 + x % 10 < 10 * p by {
      assert b * 10 <= (p - 1) * 10;
    }
    ModUnique(x, 10 * p, a, b * 10 + x % 10);
  }

  /** The remainder is the only `r` with `x == q * d + r` and `0 <= r < d`. */
  lemma ModUnique(x: nat, d: nat, q: nat, r: nat)
    requires 0 <= r < d && x == q * d + r
    ensures x % d == r
  {
    DivUnique(x, d, q, r);
  }

  /** Examples: the digits of 54321 counted from the units. */
  lemma NthDigitExamples()
    ensures Digit(54321, 0) == 1 && Digit(54321, 2) == 3 && Digit(54321, 4) == 5 && Digit(54321, 5) == 0
  {
    assert Pow10(5) == 100000;
  }

  /** Whether `c` is a decimal digit character. */
  predicate IsDigitChar(c: char) {
    '0' <= c <= '9'
  }

  /** Whether every character of `s` is a digit. */
  predicate DigitChars(s: seq<char>) {
    forall i :: 0 <= i < |s| ==> IsDigitChar(s[i])
  }

  /** The values of the digit characters at the start of `s`, up to the first character that is not a digit. */
  function LeadingDigits(s: seq<char>): (ds: seq<nat>)
    ensures |ds| <= |s| && AllDigits(ds)
  {
    if s == [] || !IsDigitChar(s[0]) then [] else [s[0] as nat - '0' as nat] + LeadingDigits(s[1..])
  }

  /**
   * `atoi` on a buffer of digit characters and NULs: the number written by
   * the digits before the first character that is not a digit.
   */
  function Atoi(s: seq<char>): nat {
    Numeral(LeadingDigits(s))
  }

  /** `k` NUL characters, as `memset(buf, 0, k)` leaves a cleared buffer. */
  function Nuls(k: nat): (s: seq<char>)
    ensures |s| == k && forall i :: 0 <= i < k ==> s[i] == 0 as char
  {
    seq(k, _ => 0 as char)
  }

  /** NULs after the typed characters do not change what `atoi` reads. */
  lemma {:induction false} AtoiPadded(typed: seq<char>, k: nat)
    ensures Atoi(typed + Nuls(k)) == Atoi(typed)
  {
    LeadingPadded(typed, k);
  }

  /** NULs after the typed characters do not change the leading digits. */
  lemma {:induction false} LeadingPadded(typed: seq<char>, k: nat)
    ensures LeadingDigits(typed + Nuls(k)) == LeadingDigits(typed)
  {
    if typed != [] {
      assert (typed + Nuls(k))[1..] == typed[1..] + Nuls(k);
      LeadingPadded(typed[1..], k);
    } else if k > 0 {
      assert (typed + Nuls(k))[0] == 0 as char;
    }
  }

  /** A buffer of `k` characters holds a number below `10^k`. */
  lemma AtoiBound(s: seq<char>)
    ensures Atoi(s) < Pow10(|s|)
  {
    NumeralBound(LeadingDigits(s));
    Pow10Mono(|LeadingDigits(s)|, |s|);
  }

  /** `10^m <= 10^n` when `m <= n`. */
  lemma {:induction false} Pow10Mono(m: nat, n: nat)
    requires m <= n
    ensures Pow10(m) <= Pow10(n)
    decreases n - m
  {
    if m < n {
      Pow10Mono(m + 1, n);
    }
  }

  /** Appending a digit character to a buffer of digit characters appends its value to the number. */
  lemma {:induction false} AtoiAppend(typed: seq<char>, c: char)
    requires DigitChars(typed) && IsDigitChar(c)
    ensures LeadingDigits(typed + [c]) == LeadingDigits(typed) + [c as nat - '0' as nat]
    ensures Atoi(typed + [c]) == Atoi(typed) * 10 + (c as nat - '0' as nat)
  {
    if typed != [] {
      assert (typed + [c])[1..] == typed[1..] + [c];
      AtoiAppend(typed[1..], c);
    }
    var ds := LeadingDigits(typed + [c]);
    assert ds[..|ds| - 1] == LeadingDigits(typed);
  }
}
