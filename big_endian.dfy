/** Big-endian reading of byte strings as unsigned integers, the way
    `U256::from_big_endian` reads a slice of at most 32 bytes, and the
    encoding that inverts it. */
module BigEndian {
  import opened Types

  function Pow256(k: nat): (r: nat)
    ensures r > 0
  {
    if k == 0 then 1 else 256 * Pow256(k - 1)
  }

  /** The unsigned integer whose big-endian representation is `b`. */
  function BeValue(b: seq<Byte>): (r: nat)
    ensures r < Pow256(|b|)
  {
    if b == [] then 0 else BeValue(b[..|b| - 1]) * 256 + b[|b| - 1]
  }

  /** The `k`-byte big-endian representation of `n`. */
  function BeEncode(n: nat, k: nat): (b: seq<Byte>)
    requires n < Pow256(k)
    ensures |b| == k
  {
    if k == 0 then [] else BeEncode(n / 256, k - 1) + [n % 256]
  }

  lemma {:induction false} BeDecodeEncode(n: nat, k: nat)
    requires n < Pow256(k)
    ensures BeValue(BeEncode(n, k)) == n
  {
    if k > 0 {
      var b := BeEncode(n, k);
      assert b[..k - 1] == BeEncode(n / 256, k - 1);
      BeDecodeEncode(n / 256, k - 1);
    }
  }

  lemma {:induction false} BeEncodeDecode(b: seq<Byte>)
    ensures BeEncode(BeValue(b), |b|) == b
  {
    if b != [] {
      var k := |b| - 1;
      var pre := b[..k];
      assert BeValue(b) / 256 == BeValue(pre);
      assert BeValue(b) % 256 == b[k];
      BeEncodeDecode(pre);
      assert b == pre + [b[k]];
    }
  }

  /** Prepending bytes shifts them above the bytes already there. */
  lemma {:induction false} BeConcat(a: seq<Byte>, b: seq<Byte>)
    ensures BeValue(a + b) == BeValue(a) * Pow256(|b|) + BeValue(b)
  {
    if b != [] {
      var k := |b| - 1;
      var ab := a + b;
      assert ab[..|ab| - 1] == a + b[..k];
      assert ab[|ab| - 1] == b[k];
      BeConcat(a, b[..k]);
      ShiftByte(BeValue(a), Pow256(k), BeValue(b[..k]), b[k], BeValue(ab), BeValue(b), Pow256(|b|));
    } else {
      assert a + b == a;
    }
  }

  /** The arithmetic step of `BeConcat`: appending a byte multiplies the
      high part's weight by 256. */
  lemma ShiftByte(x: int, p: int, y: int, c: int, whole: int, low: int, q: int)
    requires whole == (x * p + y) * 256 + c
    requires low == y * 256 + c
    requires q == 256 * p
    ensures whole == x * q + low
  {
    assert (x * p + y) * 256 == x * (256 * p) + y * 256;
  }

  lemma {:induction false} MulAtLeast(d: int, p: int)
    requires d >= 1 && p >= 0
    ensures d * p >= p
  {
    if d > 1 {
      MulAtLeast(d - 1, p);
      assert d * p == (d - 1) * p + p;
    }
  }

  lemma ModOfShifted(hi: nat, p: nat, lo: nat)
    requires lo < p
    ensures (hi * p + lo) % p == lo
  {
    var x := hi * p + lo;
    var q, m := x / p, x % p;
    assert q * p + m == x;
    var d := q - hi;
    assert d * p == lo - m by {
      assert q * p - hi * p == d * p;
    }
    if d > 0 {
      MulAtLeast(d, p);
    } else if d < 0 {
      MulAtLeast(-d, p);
    }
  }

  /** The last `k` bytes of a string hold its value modulo 256^k. */
  lemma BeLowBytes(b: seq<Byte>, k: nat)
    requires k <= |b|
    ensures BeValue(b[|b| - k..]) == BeValue(b) % Pow256(k)
  {
    var split := |b| - k;
    var hi, lo := b[..split], b[split..];
    assert b == hi + lo;
    BeConcat(hi, lo);
    assert |lo| == k;
    LowOfSum(BeValue(b), BeValue(hi), Pow256(k), BeValue(lo));
  }

  /** `v` split as `x` shifted by `p` plus a remainder below `p`: the
      remainder is `v % p`. */
  lemma LowOfSum(v: nat, x: nat, p: nat, y: nat)
    requires v == x * p + y && y < p
    ensures y == v % p
  {
    ModOfShifted(x, p, y);
  }

  lemma {:induction false} Pow256Grows(j: nat, k: nat)
    requires j <= k
    ensures Pow256(j) <= Pow256(k)
  {
    if j < k {
      Pow256Grows(j, k - 1);
    }
  }
}
