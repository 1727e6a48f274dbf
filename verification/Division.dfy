/** do_div and get_ticks of utils.c: a 64-by-32 division made of two 32-bit divides. */
module Division {
  import opened Word32

  const CYCLES_PER_TICK := 109000

  type u32 = x: int | 0 <= x < TWO32
  type u64 = x: int | 0 <= x < TWO32 * TWO32

  lemma MulMono(a: int, b: int, c: int)
    requires a <= b && c >= 0
    ensures a * c <= b * c
  {
  }

  lemma DivUnique(n: int, b: int, q: int, r: int)
    requires b > 0 && n == q * b + r && 0 <= r < b
    ensures n / b == q && n % b == r
  {
    var d := n / b - q;
    assert n == n / b * b + n % b;
    assert d * b == r - n % b;
    if d >= 1 {
      MulMono(1, d, b);
    } else if d <= -1 {
      MulMono(d, -1, b);
    }
  }

  /** divl: raises a divide error unless the quotient fits 32 bits. */
  method Divl(base: u32, low: u32, high: u32) returns (quotient: u32, remainder: u32)
    requires base > 0 && (high * TWO32 + low) / base < TWO32
    ensures quotient == (high * TWO32 + low) / base && remainder == (high * TWO32 + low) % base
  {
    var n := high * TWO32 + low;
    DivBounds(n, base);
    quotient, remainder := n / base, n % base;
  }

  lemma DivBounds(n: int, b: int)
    requires n >= 0 && b > 0
    ensures 0 <= n / b <= n && 0 <= n % b < b
  {
    var q := n / b;
    assert n == q * b + n % b;
    if q < 0 {
      MulMono(q, -1, b);
    } else {
      MulMono(1, b, q);
      assert 1 * q == q;
      assert b * q == q * b;
    }
  }

  /** A high part below the divisor makes the quotient fit. */
  lemma QuotientFits(high: int, low: int, b: int)
    requires 0 <= high < b && 0 <= low < TWO32
    ensures (high * TWO32 + low) / b < TWO32
  {
    var n := high * TWO32 + low;
    DivBounds(n, b);
    var q := n / b;
    assert n == q * b + n % b;
    MulMono(high + 1, b, TWO32);
    if q >= TWO32 {
      MulMono(TWO32, q, b);
    }
  }

  /** Dividing the high part first and carrying its remainder divides the whole. */
  lemma TwoStep(high: int, low: int, b: int)
    requires high >= 0 && 0 <= low < TWO32 && b > 0
    ensures var n := high * TWO32 + low;
            var rest := high % b * TWO32 + low;
            n / b == high / b * TWO32 + rest / b && n % b == rest % b
  {
    var n := high * TWO32 + low;
    var rest := high % b * TWO32 + low;
    DivBounds(high, b);
    DivBounds(rest, b);
    var q := high / b * TWO32 + rest / b;
    calc {
      q * b + rest % b;
      high / b * TWO32 * b + rest / b * b + rest % b;
      high / b * TWO32 * b + rest;
      (high / b * b + high % b) * TWO32 + low;
      n;
    }
    DivUnique(n, b, q, rest % b);
  }

  /** do_div: exact quotient and remainder, and the second divide never overflows. */
  method DoDiv(n: u64, base: u32) returns (quotient: u64, remainder: u32)
    requires base > 0
    ensures quotient == n / base && remainder == n % base
  {
    var low: u32, high: u32 := n % TWO32, n / TWO32;
    var upper: u32 := high;
    DivBounds(high, base);
    if high != 0 {
      upper := high % base;
      high := high / base;
    }
    assert upper == n / TWO32 % base && high == n / TWO32 / base;
    TwoStep(n / TWO32, low, base);
    QuotientFits(upper, low, base);
    low, remainder := Divl(base, low, upper);
    assert high * TWO32 + low == n / base;
    DivBounds(n, base);
    quotient := high * TWO32 + low;
  }

  /** get_ticks: the time stamp counter over 109000, as an unsigned 32-bit number. */
  method GetTicks(edx: u32, eax: u32) returns (ticks: u32)
    ensures ticks == ((edx * 0x1_0000_0000 + eax) / 109000) % 0x1_0000_0000
  {
    var q, rest := DoDiv(edx * TWO32 + eax, CYCLES_PER_TICK);
    ticks := q % TWO32;
  }
}
