/** FNV-1a, 64 bits: the wrapping machine-word loop, the masked big-integer loop, and
    why texts that differ in one byte hash differently. */
module Fnv {
  import opened CanonicalText

  type Byte = n: nat | n < 256

  const PRIME: nat := 0x100000001b3
  const OFFSET: nat := 0xcbf29ce484222325
  const INVERSE: nat := 0xce965057aff6957b
  const WORD: nat := 0x1_0000_0000_0000_0000

  function Pow2(k: nat): (r: nat)
    ensures r > 0
  {
    if k == 0 then 1 else 2 * Pow2(k - 1)
  }

  /** Bitwise operations on naturals, bit by bit. */
  function Xor(a: nat, b: nat): nat {
    if a == 0 && b == 0 then 0 else 2 * Xor(a / 2, b / 2) + (if a % 2 != b % 2 then 1 else 0)
  }

  function And(a: nat, b: nat): nat {
    if a == 0 || b == 0 then 0 else 2 * And(a / 2, b / 2) + (if a % 2 == 1 && b % 2 == 1 then 1 else 0)
  }

  // ---- bits ----

  lemma {:induction false} XorBelow(a: nat, b: nat, k: nat)
    requires a < Pow2(k) && b < Pow2(k)
    ensures Xor(a, b) < Pow2(k)
  {
    if k > 0 && (a > 0 || b > 0) { XorBelow(a / 2, b / 2, k - 1); }
  }

  lemma {:induction false} XorTwice(a: nat, b: nat)
    ensures Xor(Xor(a, b), b) == a
    decreases a + b
  {
    if a != 0 || b != 0 {
      XorTwice(a / 2, b / 2);
      var x := Xor(a, b);
      assert x / 2 == Xor(a / 2, b / 2) && x % 2 == if a % 2 != b % 2 then 1 else 0;
      if x == 0 && b == 0 { XorZero(a); }
    }
  }

  lemma {:induction false} XorZero(a: nat)
    ensures Xor(a, 0) == a
  {
    if a > 0 { XorZero(a / 2); }
  }

  lemma {:induction false} XorSymmetric(a: nat, b: nat)
    ensures Xor(a, b) == Xor(b, a)
    decreases a + b
  {
    if a != 0 || b != 0 { XorSymmetric(a / 2, b / 2); }
  }

  /** Masking with `k` one-bits is the remainder modulo `2^k`. */
  lemma {:induction false} AndMask(n: nat, k: nat)
    ensures And(n, Pow2(k) - 1) == n % Pow2(k)
    decreases k
  {
    hide And, Pow2;
    Pow2Step(k);
    AndStep(n, Pow2(k) - 1);
    if k > 0 && n > 0 {
      AndMask(n / 2, k - 1);
      MaskBits(Pow2(k - 1));
      HalfRemainder(n, Pow2(k - 1));
    }
  }

  lemma Pow2Step(k: nat)
    ensures Pow2(k) == if k == 0 then 1 else 2 * Pow2(k - 1)
  {
  }

  lemma MaskBits(half: nat)
    requires half > 0
    ensures (2 * half - 1) / 2 == half - 1 && (2 * half - 1) % 2 == 1
  {
  }

  lemma AndStep(a: nat, b: nat)
    ensures And(a, b) == if a == 0 || b == 0 then 0
                         else 2 * And(a / 2, b / 2) + (if a % 2 == 1 && b % 2 == 1 then 1 else 0)
  {
  }

  lemma HalfRemainder(n: nat, half: nat)
    requires half > 0
    ensures n % (2 * half) == 2 * ((n / 2) % half) + n % 2
  {
    var q, r := (n / 2) / half, (n / 2) % half;
    assert n / 2 == half * q + r;
    assert n == (2 * half) * q + (2 * r + n % 2);
    Remainder(2 * half, q, 2 * r + n % 2);
  }

  lemma Remainder(m: nat, q: nat, r: nat)
    requires 0 <= r < m
    ensures (m * q + r) % m == r
  {
    var x := m * q + r;
    assert x == m * (x / m) + x % m;
    assert m * (x / m - q) == r - x % m;
    if x / m != q { AtLeast(m, x / m - q); }
  }

  lemma AtLeast(m: nat, d: int)
    requires d != 0
    ensures m * d >= m || m * d + m <= 0
  {
  }

  // ---- multiplication modulo 2^64 ----

  lemma Distribute(m: nat, q: nat, r: nat, y: nat)
    ensures (m * q + r) * y == m * (q * y) + r * y
  {
  }

  lemma Collect(m: nat, a: nat, s: nat, t: nat)
    ensures m * a + (m * s + t) == m * (a + s) + t
  {
  }

  lemma MultipleMore(m: nat, k: nat, t: nat)
    requires m > 0
    ensures (m * k + t) % m == t % m
  {
    var s, u := t / m, t % m;
    assert t == m * s + u;
    Collect(m, k, s, u);
    Remainder(m, k + s, u);
  }

  lemma MulRemainder(x: nat, y: nat, m: nat)
    requires m > 0
    ensures ((x % m) * y) % m == (x * y) % m
  {
    var q, r := x / m, x % m;
    assert x == m * q + r;
    Distribute(m, q, r, y);
    MultipleMore(m, q * y, r * y);
  }

  lemma InverseOfPrime()
    ensures (PRIME * INVERSE) % WORD == 1
  {
    assert PRIME * INVERSE == WORD * (PRIME * INVERSE / WORD) + 1;
  }

  /** Multiplying by the prime modulo 2^64 can be undone. */
  lemma MulUndone(a: nat)
    requires a < WORD
    ensures (((a * PRIME) % WORD) * INVERSE) % WORD == a
  {
    MulRemainder(a * PRIME, INVERSE, WORD);
    assert a * PRIME * INVERSE == (PRIME * INVERSE) * a;
    InverseOfPrime();
    MulRemainder(PRIME * INVERSE, a, WORD);
    assert a % WORD == a;
  }

  // ---- the hash ----

  function Step(hash: nat, byte: Byte): (r: nat)
    ensures r < WORD
  {
    (Xor(hash, byte) * PRIME) % WORD
  }

  function Fold(hash: nat, bytes: seq<Byte>): nat
    decreases |bytes|
  {
    if bytes == [] then hash else Fold(Step(hash, bytes[0]), bytes[1..])
  }

  lemma WordIsPow2()
    ensures WORD == Pow2(64)
  {
    assert Pow2(8) == 256;
    assert Pow2(16) == 256 * Pow2(8);
    assert Pow2(24) == 256 * Pow2(16);
    assert Pow2(32) == 256 * Pow2(24);
    assert Pow2(40) == 256 * Pow2(32);
    assert Pow2(48) == 256 * Pow2(40);
    assert Pow2(56) == 256 * Pow2(48);
    assert Pow2(64) == 256 * Pow2(56);
  }

  lemma WordXor(hash: nat, byte: Byte)
    requires hash < WORD
    ensures Xor(hash, byte) < WORD
  {
    WordIsPow2();
    XorBelow(hash, byte, 64);
  }

  /** For a fixed byte a step loses nothing of the hash; for a fixed hash it tells bytes apart. */
  lemma StepInjective(h: nat, g: nat, b: Byte, c: Byte)
    requires h < WORD && g < WORD && (b == c || h == g)
    ensures Step(h, b) == Step(g, c) ==> h == g && b == c
  {
    hide Xor;
    WordXor(h, b);
    WordXor(g, c);
    if Step(h, b) == Step(g, c) {
      MulUndone(Xor(h, b));
      MulUndone(Xor(g, c));
      XorTwice(h, b);
      XorTwice(g, c);
      XorSymmetric(h, b);
      XorSymmetric(g, c);
      XorTwice(b, h);
      XorTwice(c, g);
    }
  }

  lemma {:induction false} FoldInjective(h: nat, g: nat, bytes: seq<Byte>)
    requires h < WORD && g < WORD && Fold(h, bytes) == Fold(g, bytes)
    ensures h == g
    decreases |bytes|
  {
    if bytes != [] {
      FoldInjective(Step(h, bytes[0]), Step(g, bytes[0]), bytes[1..]);
      StepInjective(h, g, bytes[0], bytes[0]);
    }
  }

  /** Texts of one length that differ in exactly one byte never hash alike, from any start. */
  lemma {:induction false} OneByteApart(h: nat, s: seq<Byte>, t: seq<Byte>, i: nat)
    requires h < WORD && |s| == |t| && i < |s| && s[i] != t[i]
    requires forall j :: 0 <= j < |s| && j != i ==> s[j] == t[j]
    ensures Fold(h, s) != Fold(h, t)
    decreases |s|
  {
    if i == 0 {
      assert s[1..] == t[1..];
      StepInjective(h, h, s[0], t[0]);
      if Fold(h, s) == Fold(h, t) { FoldInjective(Step(h, s[0]), Step(h, t[0]), s[1..]); }
    } else {
      OneByteApart(Step(h, s[0]), s[1..], t[1..], i - 1);
    }
  }

  lemma {:induction false} FoldBelow(h: nat, bytes: seq<Byte>)
    requires h < WORD
    ensures Fold(h, bytes) < WORD
    decreases |bytes|
  {
    if bytes != [] { FoldBelow(Step(h, bytes[0]), bytes[1..]); }
  }

  // ---- rendering ----

  /** Hexadecimal without leading zeros, as `toString(16)` gives it. */
  function Shortest(n: nat): string { if n < 16 then [HexDigit(n)] else Shortest(n / 16) + [HexDigit(n % 16)] }

  function Zeros(k: nat): (r: string)
    ensures |r| == k
  {
    if k == 0 then "" else ['0'] + Zeros(k - 1)
  }

  function PadStart(s: string, k: nat): string { if |s| >= k then s else Zeros(k - |s|) + s }

  lemma {:induction false} ZeroDigits(k: nat)
    ensures Hex(0, k) == Zeros(k)
  {
    if k > 0 {
      ZeroDigits(k - 1);
      ZerosEnd(k - 1);
    }
  }

  lemma {:induction false} ZerosEnd(k: nat)
    ensures Zeros(k) + ['0'] == ['0'] + Zeros(k)
  {
    if k > 0 {
      ZerosEnd(k - 1);
      assert Zeros(k) + ['0'] == ['0'] + (Zeros(k - 1) + ['0']);
    }
  }

  /** Below 16^k, padding the shortest digits gives exactly the `k` fixed digits. */
  lemma {:induction false} PaddedIsFixed(n: nat, k: nat)
    requires k > 0 && n < Pow16(k)
    ensures |Shortest(n)| <= k && PadStart(Shortest(n), k) == Hex(n, k)
  {
    if n < 16 {
      assert n / 16 == 0 && n % 16 == n;
      ZeroDigits(k - 1);
    } else {
      assert k > 1;
      PaddedIsFixed(n / 16, k - 1);
      var short := Shortest(n / 16);
      assert PadStart(short, k - 1) + [HexDigit(n % 16)] == Zeros(k - 1 - |short|) + (short + [HexDigit(n % 16)]);
    }
  }

  lemma WordIsPow16()
    ensures WORD == Pow16(16)
  {
    assert Pow16(4) == 0x10000;
    assert Pow16(8) == 0x10000 * Pow16(4);
    assert Pow16(12) == 0x10000 * Pow16(8);
    assert Pow16(16) == 0x10000 * Pow16(12);
  }

  // ---- the two loops ----

  function Hash(bytes: seq<Byte>): string { Hex(Fold(OFFSET, bytes), 16) }

  lemma FoldStep(h: nat, bytes: seq<Byte>, i: nat)
    requires i < |bytes|
    ensures Fold(h, bytes[i..]) == Fold(Step(h, bytes[i]), bytes[i + 1..])
  {
    assert bytes[i..][0] == bytes[i] && bytes[i..][1..] == bytes[i + 1..];
  }

  predicate IsHexDigit(c: char) { '0' <= c <= '9' || 'a' <= c <= 'f' }

  lemma {:induction false} HexIsHex(n: nat, k: nat)
    ensures forall i :: 0 <= i < k ==> IsHexDigit(Hex(n, k)[i])
  {
    if k > 0 { HexIsHex(n / 16, k - 1); }
  }

  /** Machine words: exclusive or, then a multiplication that wraps. */
  method Fnv1a64Words(bytes: seq<Byte>) returns (r: string)
    ensures r == Hash(bytes) && |r| == 16 && forall i :: 0 <= i < 16 ==> IsHexDigit(r[i])
  {
    hide Fold, Xor, Hex;
    var hash: nat := OFFSET;
    for i := 0 to |bytes|
      invariant hash < WORD && Fold(hash, bytes[i..]) == Fold(OFFSET, bytes)
    {
      FoldStep(hash, bytes, i);
      hash := Xor(hash, bytes[i]);
      hash := (hash * PRIME) % WORD;
    }
    assert bytes[|bytes|..] == [];
    FoldNothing(hash);
    HexIsHex(hash, 16);
    r := Hex(hash, 16);
  }

  lemma FoldNothing(h: nat)
    ensures Fold(h, []) == h
  {
  }

  /** Big integers: the product is unbounded, then masked; the digits are padded. */
  method Fnv1a64BigInt(bytes: seq<Byte>) returns (r: string)
    ensures r == Hash(bytes)
  {
    hide Fold, Xor, Hex, And, Pow2, Pow16;
    var hash: nat := OFFSET;
    for i := 0 to |bytes|
      invariant hash < WORD && Fold(hash, bytes[i..]) == Fold(OFFSET, bytes)
    {
      FoldStep(hash, bytes, i);
      hash := Xor(hash, bytes[i]);
      WordIsPow2();
      AndMask(hash * PRIME, 64);
      hash := And(hash * PRIME, 0xffff_ffff_ffff_ffff);
    }
    assert bytes[|bytes|..] == [];
    FoldNothing(hash);
    WordIsPow16();
    PaddedIsFixed(hash, 16);
    r := PadStart(Shortest(hash), 16);
  }

  /** Two rendered hashes of texts one byte apart differ. */
  lemma HashesApart(s: seq<Byte>, t: seq<Byte>, i: nat)
    requires |s| == |t| && i < |s| && s[i] != t[i]
    requires forall j :: 0 <= j < |s| && j != i ==> s[j] == t[j]
    ensures Hash(s) != Hash(t)
  {
    hide Fold, Hex, Pow16;
    OneByteApart(OFFSET, s, t, i);
    FoldBelow(OFFSET, s);
    FoldBelow(OFFSET, t);
    WordIsPow16();
    if Hash(s) == Hash(t) { HexInjective(Fold(OFFSET, s), Fold(OFFSET, t), 16); }
  }
}
