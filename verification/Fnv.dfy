/** 64-bit FNV-1a, section 2 of draft-eastlake-fnv (retrieval/fnv.go). A string is its bytes. */
module Fnv {
  type Byte = x: int | 0 <= x < 256
  type Bytes = seq<Byte>

  const TWO_64 := 0x1_0000_0000_0000_0000

  /** uint64, with the wrap-around written out. */
  type Uint64 = x: int | 0 <= x < TWO_64 witness 0

  const OFFSET64: Uint64 := 14695981039346656037
  const PRIME64: Uint64 := 1099511628211
  // The inverse of PRIME64 modulo 2^64: PRIME64 * PRIME64_INVERSE == 1 + QUOTIENT * 2^64.
  const PRIME64_INVERSE: Uint64 := 14886173955864302971
  const QUOTIENT := 887285111055

  /** Exclusive or of two non-negative integers, bit by bit. */
  function Xor(a: nat, b: nat): nat {
    if a == 0 && b == 0 then 0 else 2 * Xor(a / 2, b / 2) + (a + b) % 2
  }

  function Pow2(k: nat): nat {
    if k == 0 then 1 else 2 * Pow2(k - 1)
  }

  lemma Pow2Byte(k: nat)
    ensures Pow2(k + 8) == 256 * Pow2(k)
  {
    assert Pow2(k + 2) == 4 * Pow2(k);
    assert Pow2(k + 4) == 4 * Pow2(k + 2);
    assert Pow2(k + 6) == 4 * Pow2(k + 4);
  }

  lemma Pow2Of64()
    ensures Pow2(64) == TWO_64
  {
    Pow2Byte(0);
    Pow2Byte(8);
    Pow2Byte(16);
    Pow2Byte(24);
    Pow2Byte(32);
    Pow2Byte(40);
    Pow2Byte(48);
    Pow2Byte(56);
  }

  lemma {:induction false} XorBound(a: nat, b: nat, k: nat)
    requires a < Pow2(k) && b < Pow2(k)
    ensures Xor(a, b) < Pow2(k)
  {
    if k > 0 && !(a == 0 && b == 0) {
      XorBound(a / 2, b / 2, k - 1);
    }
  }

  lemma Halves(r: nat, c: nat)
    requires c < 2
    ensures (2 * r + c) % 2 == c && (2 * r + c) / 2 == r
  {
  }

  /** The last bit of the Xor tells whether the last bits differ, the rest is the Xor of the rests. */
  lemma {:induction false} XorHalves(a: nat, b: nat)
    ensures Xor(a, b) % 2 == (a + b) % 2 && Xor(a, b) / 2 == Xor(a / 2, b / 2)
  {
    Halves(Xor(a / 2, b / 2), (a + b) % 2);
  }

  lemma LastBits(a: nat, b: nat, x: nat)
    requires x % 2 == (a + b) % 2
    ensures (x + b) % 2 == a % 2
  {
  }

  lemma {:induction false} XorInverse(a: nat, b: nat)
    ensures Xor(Xor(a, b), b) == a
    decreases a + b
  {
    if a + b > 0 {
      var x := Xor(a, b);
      XorHalves(a, b);
      XorHalves(x, b);
      XorInverse(a / 2, b / 2);
      LastBits(a, b, x);
      assert Xor(x, b) / 2 == a / 2 && Xor(x, b) % 2 == a % 2;
    }
  }

  lemma {:induction false} XorSymmetric(a: nat, b: nat)
    ensures Xor(a, b) == Xor(b, a)
  {
    if a + b > 0 {
      XorSymmetric(a / 2, b / 2);
    }
  }

  function XorByte(h: Uint64, b: Byte): Uint64 {
    Pow2Of64();
    XorBound(h, b, 64);
    Xor(h, b)
  }

  function MulPrime(h: Uint64): Uint64 {
    h * PRIME64 % TWO_64
  }

  function MulInverse(h: Uint64): Uint64 {
    h * PRIME64_INVERSE % TWO_64
  }

  function AddByte(h: Uint64, b: Byte): Uint64 {
    MulPrime(XorByte(h, b))
  }

  /** FNV-1a from an intermediate hash on. */
  function Add(h: Uint64, s: Bytes): Uint64 {
    if s == [] then h else AddByte(Add(h, s[..|s| - 1]), s[|s| - 1])
  }

  function Hash(s: Bytes): Uint64 {
    Add(OFFSET64, s)
  }

  method HashNew() returns (h: Uint64)
    ensures h == Hash([])
  {
    h := OFFSET64;
  }

  method HashAdd(h0: Uint64, s: Bytes) returns (h: Uint64)
    ensures h == Add(h0, s)
  {
    h := h0;
    var i := 0;
    while i < |s|
      invariant 0 <= i <= |s| && h == Add(h0, s[..i])
    {
      assert s[..i + 1][..i] == s[..i];
      h := XorByte(h, s[i]);
      h := h * PRIME64 % TWO_64;
      i := i + 1;
    }
    assert s[..i] == s;
  }

  method HashAddByte(h0: Uint64, b: Byte) returns (h: Uint64)
    ensures h == Add(h0, [b])
  {
    h := XorByte(h0, b);
    h := h * PRIME64 % TWO_64;
    assert [b][..0] == [];
  }

  lemma {:induction false} XorZero(a: nat)
    ensures Xor(a, 0) == a
  {
    if a > 0 {
      XorZero(a / 2);
    }
  }

  /** Values published with the algorithm: the hash of the empty string and of "a". */
  lemma PublishedValues()
    ensures Hash([]) == 0xcbf2_9ce4_8422_2325
    ensures Hash([0x61]) == 0xaf63_dc4c_8601_ec8c
  {
    assert [0x61][..0] == [];
    XorZero(114812351869895750);
    assert Xor(229624703739791500, 1) == 229624703739791501;
    assert Xor(459249407479583001, 3) == 459249407479583002;
    assert Xor(918498814959166002, 6) == 918498814959166004;
    assert Xor(1836997629918332004, 12) == 1836997629918332008;
    assert Xor(3673995259836664009, 24) == 3673995259836664017;
    assert Xor(7347990519673328018, 48) == 7347990519673328034;
    assert Xor(14695981039346656037, 97) == 14695981039346656068;
  }

  /** Hashing a concatenation is hashing the parts one after the other. */
  lemma {:induction false} AddConcat(h: Uint64, s: Bytes, t: Bytes)
    ensures Add(h, s + t) == Add(Add(h, s), t)
  {
    if t == [] {
      assert s + t == s;
    } else {
      assert (s + t)[..|s + t| - 1] == s + t[..|t| - 1];
      AddConcat(h, s, t[..|t| - 1]);
    }
  }

  lemma ModOf(h: Uint64, m: int)
    ensures (h + m * TWO_64) % TWO_64 == h
  {
  }

  lemma {:induction false} MulPrimeInverse(h: Uint64)
    ensures MulInverse(MulPrime(h)) == h
    ensures MulPrime(MulInverse(h)) == h
  {
    var j, k := h * PRIME64 / TWO_64, h * PRIME64_INVERSE / TWO_64;
    var x, y := MulPrime(h), MulInverse(h);
    assert x == h * PRIME64 - j * TWO_64 && y == h * PRIME64_INVERSE - k * TWO_64;
    assert x * PRIME64_INVERSE == h + (h * QUOTIENT - j * PRIME64_INVERSE) * TWO_64;
    assert y * PRIME64 == h + (h * QUOTIENT - k * PRIME64) * TWO_64;
    ModOf(h, h * QUOTIENT - j * PRIME64_INVERSE);
    ModOf(h, h * QUOTIENT - k * PRIME64);
  }

  function SubByte(h: Uint64, b: Byte): Uint64 {
    XorByte(MulInverse(h), b)
  }

  lemma {:induction false} ByteInverse(h: Uint64, b: Byte)
    ensures SubByte(AddByte(h, b), b) == h
    ensures AddByte(SubByte(h, b), b) == h
  {
    XorInverse(h, b);
    MulPrimeInverse(XorByte(h, b));
    MulPrimeInverse(h);
    XorInverse(MulInverse(h), b);
  }

  /** Different bytes lead to different hashes. */
  lemma ByteDiffers(h: Uint64, a: Byte, b: Byte)
    requires a != b
    ensures AddByte(h, a) != AddByte(h, b)
  {
    XorSymmetric(h, a);
    XorSymmetric(h, b);
    XorInverse(a, h);
    XorInverse(b, h);
    MulPrimeInverse(XorByte(h, a));
    MulPrimeInverse(XorByte(h, b));
  }

  /** Undoes Add. */
  function Sub(h: Uint64, s: Bytes): Uint64
    decreases s
  {
    if s == [] then h else Sub(SubByte(h, s[|s| - 1]), s[..|s| - 1])
  }

  /** Adding a string permutes the 2^64 hash values. */
  lemma {:induction false} AddIsPermutation(h: Uint64, s: Bytes)
    decreases s
    ensures Sub(Add(h, s), s) == h
    ensures Add(Sub(h, s), s) == h
  {
    if s != [] {
      var b, t := s[|s| - 1], s[..|s| - 1];
      ByteInverse(Add(h, t), b);
      ByteInverse(h, b);
      AddIsPermutation(h, t);
      AddIsPermutation(SubByte(h, b), t);
    }
  }

  lemma {:induction false} AddInjective(h1: Uint64, h2: Uint64, s: Bytes)
    requires Add(h1, s) == Add(h2, s)
    ensures h1 == h2
  {
    AddIsPermutation(h1, s);
    AddIsPermutation(h2, s);
  }

  lemma {:induction false} AddSurjective(h: Uint64, s: Bytes)
    ensures exists g: Uint64 :: Add(g, s) == h
  {
    AddIsPermutation(h, s);
  }

  /** Two strings that differ in exactly one byte never collide. */
  lemma {:induction false} OneByteNeverCollides(h: Uint64, p: Bytes, a: Byte, b: Byte, t: Bytes)
    requires a != b
    ensures Add(h, p + [a] + t) != Add(h, p + [b] + t)
  {
    AddConcat(h, p + [a], t);
    AddConcat(h, p + [b], t);
    AddConcat(h, p, [a]);
    AddConcat(h, p, [b]);
    assert [a][..0] == [] && [b][..0] == [];
    var x := Add(h, p);
    ByteDiffers(x, a, b);
    if Add(h, p + [a] + t) == Add(h, p + [b] + t) {
      AddInjective(AddByte(x, a), AddByte(x, b), t);
    }
  }
}
