/** Machine words as bounded naturals: bitwise exclusive or, little-endian bytes, and an odd factor modulo 2^64. */
module Words {

  type Byte = b: nat | b < 256

  type Bytes = seq<Byte>

  const WORD: nat := 0x1_0000_0000_0000_0000

  type Word = w: nat | w < WORD

  function Pow2(n: nat): (p: nat)
    ensures p > 0
  {
    if n == 0 then 1 else 2 * Pow2(n - 1)
  }

  lemma {:induction false} Pow2Adds(m: nat, n: nat)
    ensures Pow2(m + n) == Pow2(m) * Pow2(n)
  {
    if m > 0 {
      Pow2Adds(m - 1, n);
    }
  }

  lemma Pow2Of16()
    ensures Pow2(8) == 256 && Pow2(16) == 0x1_0000
  {
    assert Pow2(1) == 2 && Pow2(2) == 4;
    Pow2Adds(2, 2);
    Pow2Adds(4, 4);
    Pow2Adds(8, 8);
  }

  lemma Pow2Of64()
    ensures Pow2(8) == 256 && Pow2(64) == WORD
  {
    Pow2Of16();
    Pow2Adds(16, 16);
    Pow2Adds(32, 32);
  }

  lemma Pow2Of128()
    ensures Pow2(128) == WORD * WORD
  {
    Pow2Of64();
    Pow2Adds(64, 64);
  }

  // ---------------------------------------------------------------- exclusive or

  /** Bitwise exclusive or of the low `n` bits. */
  function Xor(x: nat, y: nat, n: nat): (z: nat)
    ensures z < Pow2(n)
  {
    if n == 0 then 0 else (x + y) % 2 + 2 * Xor(x / 2, y / 2, n - 1)
  }

  lemma {:induction false} XorCommutes(x: nat, y: nat, n: nat)
    ensures Xor(x, y, n) == Xor(y, x, n)
  {
    if n > 0 {
      XorCommutes(x / 2, y / 2, n - 1);
    }
  }

  lemma LowBit(x: nat, y: nat, w: nat)
    ensures var z := (x + y) % 2 + 2 * w; z / 2 == w && (z + y) % 2 == x % 2
  {
    var z := (x + y) % 2 + 2 * w;
    assert z + y == x + 2 * (w + y - (x + y) / 2);
  }

  /** Applying the same mask twice gives back the word. */
  lemma {:induction false} XorUndoes(x: nat, y: nat, n: nat)
    requires x < Pow2(n)
    ensures Xor(Xor(x, y, n), y, n) == x
  {
    if n > 0 {
      var z := Xor(x, y, n);
      LowBit(x, y, Xor(x / 2, y / 2, n - 1));
      XorUndoes(x / 2, y / 2, n - 1);
    }
  }

  /** Bit `i` of a word. */
  function Bit(x: nat, i: nat): nat {
    if i == 0 then x % 2 else Bit(x / 2, i - 1)
  }

  /** Each bit is set exactly where the two words differ. */
  lemma {:induction false} XorBits(x: nat, y: nat, n: nat, i: nat)
    requires i < n
    ensures Bit(Xor(x, y, n), i) == if Bit(x, i) == Bit(y, i) then 0 else 1
  {
    var w := Xor(x / 2, y / 2, n - 1);
    assert ((x + y) % 2 + 2 * w) / 2 == w;
    if i > 0 {
      XorBits(x / 2, y / 2, n - 1, i - 1);
    }
  }

  /** So one mask keeps different words different. */
  lemma XorIsInjective(x: nat, y: nat, mask: nat, n: nat)
    requires x < Pow2(n) && y < Pow2(n) && Xor(x, mask, n) == Xor(y, mask, n)
    ensures x == y
  {
    XorUndoes(x, mask, n);
    XorUndoes(y, mask, n);
  }

  // ---------------------------------------------------------------- the odd factor

  /** Multiplication by the FNV prime, wrapping at 64 bits. */
  function TimesPrime(x: nat): (z: Word) {
    (x * 0x0000_0100_0000_01b3) % 0x1_0000_0000_0000_0000
  }

  /** The prime is odd, so it has an inverse modulo 2^64, and multiplying by it loses nothing. */
  lemma TimesPrimeIsInjective(x: Word, y: Word)
    requires TimesPrime(x) == TimesPrime(y)
    ensures x == y
  {
    var p := (x * 0x0000_0100_0000_01b3) / 0x1_0000_0000_0000_0000;
    var q := (y * 0x0000_0100_0000_01b3) / 0x1_0000_0000_0000_0000;
    SameProduct(x, y, p, q, TimesPrime(x));
  }

  lemma SameProduct(x: Word, y: Word, p: int, q: int, r: int)
    requires x * 0x0000_0100_0000_01b3 == p * 0x1_0000_0000_0000_0000 + r
    requires y * 0x0000_0100_0000_01b3 == q * 0x1_0000_0000_0000_0000 + r
    ensures x == y
  {
    var d, e := x - y, p - q;
    assert d * 0x0000_0100_0000_01b3 == e * 0x1_0000_0000_0000_0000;
    MultiplyByInverse(d, e);
  }

  lemma MultiplyByInverse(d: int, e: int)
    requires d * 0x0000_0100_0000_01b3 == e * 0x1_0000_0000_0000_0000
    requires -0x1_0000_0000_0000_0000 < d < 0x1_0000_0000_0000_0000
    ensures d == 0
  {
    var t := e * 0xce96_5057_aff6_957b - d * 0xce9650590f;
    assert 0x0000_0100_0000_01b3 * 0xce96_5057_aff6_957b == 1 + 0xce9650590f * 0x1_0000_0000_0000_0000;
    assert d == t * 0x1_0000_0000_0000_0000;
  }

  // ---------------------------------------------------------------- little-endian bytes

  /** The low `n` bytes of a word, least significant first. */
  function ToLe(x: nat, n: nat): (bytes: Bytes)
    ensures |bytes| == n
  {
    if n == 0 then [] else [x % 256] + ToLe(x / 256, n - 1)
  }

  function FromLe(bytes: Bytes): nat {
    if bytes == [] then 0 else bytes[0] + 256 * FromLe(bytes[1..])
  }

  lemma {:induction false} FromLeToLe(x: nat, n: nat)
    requires x < Pow2(8 * n)
    ensures FromLe(ToLe(x, n)) == x
  {
    if n > 0 {
      Pow2Adds(8, 8 * (n - 1));
      Pow2Of64();
      assert Pow2(8 * n) == 256 * Pow2(8 * (n - 1));
      FromLeToLe(x / 256, n - 1);
      assert ToLe(x, n)[1..] == ToLe(x / 256, n - 1);
    }
  }

  /** Replacing the first byte of a little-endian number changes it by their difference. */
  lemma LowByte(bytes: Bytes, b: Byte)
    requires bytes != []
    ensures FromLe(bytes[0 := b]) == FromLe(bytes) - bytes[0] + b
    ensures bytes[0] == FromLe(bytes) % 256
  {
    assert bytes[0 := b][1..] == bytes[1..];
  }

  lemma {:induction false} FromLeIsInjective(x: Bytes, y: Bytes)
    requires |x| == |y| && FromLe(x) == FromLe(y)
    ensures x == y
  {
    if x != [] {
      assert FromLe(x) % 256 == x[0] && FromLe(y) % 256 == y[0];
      FromLeIsInjective(x[1..], y[1..]);
      assert x == [x[0]] + x[1..] && y == [y[0]] + y[1..];
    }
  }
}
