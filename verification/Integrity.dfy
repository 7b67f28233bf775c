/**
 The 64-bit FNV-1a hash of section 2 of draft-eastlake-fnv, run as two lanes, and what it is trusted for:
 a change of any one byte is always noticed.
 */
module Integrity {
  import opened Words

  const FNV_OFFSET_A: Word := 0xcbf2_9ce4_8422_2325

  const FNV_OFFSET_B: Word := 0x9ae1_6a3b_2f90_404f

  /** One round: fold a byte in, then multiply. */
  function Mix(h: Word, b: Byte): Word {
    TimesPrime(Xor(h, b, 64))
  }

  lemma MixKeepsStatesApart(h: Word, g: Word, b: Byte)
    requires Mix(h, b) == Mix(g, b)
    ensures h == g
  {
    Pow2Of64();
    TimesPrimeIsInjective(Xor(h, b, 64), Xor(g, b, 64));
    XorUndoes(h, b, 64);
    XorUndoes(g, b, 64);
  }

  lemma MixKeepsBytesApart(h: Word, b: Byte, c: Byte)
    requires Mix(h, b) == Mix(h, c)
    ensures b == c
  {
    Pow2Of64();
    TimesPrimeIsInjective(Xor(h, b, 64), Xor(h, c, 64));
    XorCommutes(h, b, 64);
    XorCommutes(h, c, 64);
    XorUndoes(b, h, 64);
    XorUndoes(c, h, 64);
  }

  /** The state after the first `i` bytes. */
  function State(bytes: Bytes, offset: Word, i: nat): Word
    requires i <= |bytes|
  {
    if i == 0 then offset else Mix(State(bytes, offset, i - 1), bytes[i - 1])
  }

  function Fnv(bytes: Bytes, offset: Word): Word {
    State(bytes, offset, |bytes|)
  }

  method Fnv1a(bytes: Bytes, offset: Word) returns (hash: Word)
    ensures hash == Fnv(bytes, offset)
  {
    Pow2Of64();
    hash := offset;
    for i := 0 to |bytes|
      invariant hash == State(bytes, offset, i)
    {
      hash := Xor(hash, bytes[i], 64);
      hash := TimesPrime(hash);
    }
  }

  /** The fold comes before the product: the standard's order, in which each byte is spread by a multiplication. */
  lemma LastByteIsFoldedThenMultiplied(bytes: Bytes, offset: Word)
    requires bytes != []
    ensures Fnv([], offset) == offset
    ensures var before := Fnv(bytes[..|bytes| - 1], offset);
            Fnv(bytes, offset) == (Xor(before, bytes[|bytes| - 1], 64) * 0x0000_0100_0000_01b3) % 0x1_0000_0000_0000_0000
  {
    StateOfPrefix(bytes, offset, |bytes| - 1);
  }

  lemma {:induction false} StateOfPrefix(bytes: Bytes, offset: Word, i: nat)
    requires i <= |bytes|
    ensures State(bytes, offset, i) == Fnv(bytes[..i], offset)
    decreases i, |bytes|
  {
    if i > 0 {
      StateOfPrefix(bytes, offset, i - 1);
      StateOfPrefix(bytes[..i], offset, i - 1);
      assert bytes[..i][..i - 1] == bytes[..i - 1];
      assert bytes[..i][i - 1] == bytes[i - 1];
    }
  }

  predicate DifferOnlyAt(x: Bytes, y: Bytes, p: nat) {
    |x| == |y| && p < |x| && x[p] != y[p] && forall i :: 0 <= i < |x| && i != p ==> x[i] == y[i]
  }

  /** Up to the changed byte the states agree; from it on they never meet again. */
  lemma {:induction false} StatesDiverge(x: Bytes, y: Bytes, offset: Word, p: nat, i: nat)
    requires DifferOnlyAt(x, y, p) && i <= |x|
    ensures State(x, offset, i) == State(y, offset, i) <==> i <= p
  {
    if i > 0 {
      StatesDiverge(x, y, offset, p, i - 1);
      var h, g := State(x, offset, i - 1), State(y, offset, i - 1);
      if i - 1 == p {
        if Mix(h, x[p]) == Mix(h, y[p]) {
          MixKeepsBytesApart(h, x[p], y[p]);
        }
      } else if Mix(h, x[i - 1]) == Mix(g, x[i - 1]) {
        MixKeepsStatesApart(h, g, x[i - 1]);
      }
    }
  }

  /** A one-byte change always changes the hash, whatever the offset. */
  lemma OneByteChangeIsNoticed(x: Bytes, y: Bytes, offset: Word, p: nat)
    requires DifferOnlyAt(x, y, p)
    ensures Fnv(x, offset) != Fnv(y, offset)
  {
    StatesDiverge(x, y, offset, p, |x|);
  }

  /** The two lanes side by side, the first in the high half. */
  function Digest(bytes: Bytes): (d: nat)
    ensures d < WORD * WORD
  {
    Fnv(bytes, FNV_OFFSET_A) * WORD + Fnv(bytes, FNV_OFFSET_B)
  }

  /** Each half of a digest is one lane's hash. */
  lemma LanesOfDigest(bytes: Bytes)
    ensures Digest(bytes) / 0x1_0000_0000_0000_0000 == Fnv(bytes, 0xcbf2_9ce4_8422_2325)
    ensures Digest(bytes) % 0x1_0000_0000_0000_0000 == Fnv(bytes, 0x9ae1_6a3b_2f90_404f)
  {
  }

  lemma OneByteChangesTheDigest(x: Bytes, y: Bytes, p: nat)
    requires DifferOnlyAt(x, y, p)
    ensures Digest(x) != Digest(y)
  {
    OneByteChangeIsNoticed(x, y, FNV_OFFSET_A, p);
  }

  /** The length times the prime, in 128 bits. */
  function LengthMask(n: nat): nat {
    ((n % WORD) * 0x0000_0100_0000_01b3) % (WORD * WORD)
  }

  /** The digest masked with the length. */
  function Fingerprint(bytes: Bytes): nat {
    Xor(Digest(bytes), LengthMask(|bytes|), 128)
  }

  /** Two keys whose digests collide still have different fingerprints if their lengths differ. */
  lemma LengthsTellCollidingKeysApart(x: Bytes, y: Bytes)
    requires Digest(x) == Digest(y) && |x| != |y| && |x| < WORD && |y| < WORD
    ensures Fingerprint(x) != Fingerprint(y)
  {
    var m, n := LengthMask(|x|), LengthMask(|y|);
    MasksDiffer(|x|, |y|);
    Pow2Of128();
    XorCommutes(Digest(x), m, 128);
    XorCommutes(Digest(x), n, 128);
    if Fingerprint(x) == Fingerprint(y) {
      XorIsInjective(m, n, Digest(x), 128);
    }
  }

  /** The product does not wrap. */
  lemma MasksDiffer(x: Word, y: Word)
    requires x != y
    ensures LengthMask(x) != LengthMask(y) && LengthMask(x) < WORD * WORD && LengthMask(y) < WORD * WORD
  {
  }

  /** Two keys of one length, a byte apart, are never taken for each other. */
  lemma NeighbouringKeysDiffer(x: Bytes, y: Bytes, p: nat)
    requires DifferOnlyAt(x, y, p)
    ensures Fingerprint(x) != Fingerprint(y)
  {
    OneByteChangesTheDigest(x, y, p);
    Pow2Of128();
    if Fingerprint(x) == Fingerprint(y) {
      XorIsInjective(Digest(x), Digest(y), LengthMask(|x|), 128);
    }
  }
}
