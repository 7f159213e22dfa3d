/** The sampling hash in the three arithmetic styles it is written in. */
module Sampling {
  type Byte = b: int | 0 <= b < 256

  // 2166136261 is the 32-bit offset basis and 16777619 the 32-bit prime.

  // --------------------------------------------------------- bits of naturals

  /** Bitwise exclusive or. */
  function Xor(a: nat, b: nat): nat {
    if a == 0 && b == 0 then 0 else 2 * Xor(a / 2, b / 2) + (a % 2 + b % 2) % 2
  }

  /** Bitwise and. */
  function And(a: nat, b: nat): nat {
    if a == 0 || b == 0 then 0 else 2 * And(a / 2, b / 2) + (a % 2) * (b % 2)
  }

  function Pow2(k: nat): nat {
    if k == 0 then 1 else 2 * Pow2(k - 1)
  }

  lemma {:induction false} XorBound(a: nat, b: nat, k: nat)
    requires a < Pow2(k) && b < Pow2(k)
    ensures Xor(a, b) < Pow2(k)
  {
    if k > 0 && !(a == 0 && b == 0) {
      XorBound(a / 2, b / 2, k - 1);
    }
  }

  lemma {:induction false} Pow2Positive(k: nat)
    ensures Pow2(k) > 0
  {
    if k > 0 {
      Pow2Positive(k - 1);
    }
  }

  lemma HalfMod(a: nat, m: nat)
    requires m > 0
    ensures a % (2 * m) == 2 * ((a / 2) % m) + a % 2
  {
    var q, r := (a / 2) / m, (a / 2) % m;
    assert a / 2 == m * q + r;
    var low: nat := 2 * r + a % 2;
    assert low < 2 * m;
    assert a == (2 * m) * q + low;
    ModUnique(a, 2 * m, q, low);
  }

  lemma Multiple(m: int, d: int)
    requires m > 0 && d != 0
    ensures m * d >= m || m * d <= -m
  {
  }

  lemma Spread(m: int, q: int, r: int)
    ensures m * q - m * r == m * (q - r)
  {
  }

  lemma ModUnique(a: int, m: int, q: int, r: int)
    requires m > 0 && a == m * q + r && 0 <= r < m
    ensures a % m == r
  {
    var k := a / m;
    assert a == m * k + a % m;
    Spread(m, q, k);
    if q != k {
      Multiple(m, q - k);
    }
  }

  lemma AndOnes(a: nat, m: nat)
    requires m > 0
    ensures And(a, 2 * m - 1) == 2 * And(a / 2, m - 1) + a % 2
  {
    assert (2 * m - 1) / 2 == m - 1 && (2 * m - 1) % 2 == 1;
  }

  /** One more bit of a mask of ones. */
  lemma {:induction false} MaskStep(a: nat, m: nat)
    requires m > 0 && And(a / 2, m - 1) == (a / 2) % m
    ensures And(a, 2 * m - 1) == a % (2 * m)
  {
    AndOnes(a, m);
    HalfMod(a, m);
  }

  /** Masking with k ones is reduction modulo 2^k. */
  lemma {:induction false} MaskIsMod(a: nat, k: nat)
    ensures Pow2(k) > 0 && And(a, Pow2(k) - 1) == a % Pow2(k)
  {
    if k > 0 {
      MaskIsMod(a / 2, k - 1);
      MaskStep(a, Pow2(k - 1));
    }
  }

  lemma Powers()
    ensures Pow2(8) == 256 && Pow2(32) == 0x1_0000_0000 && Pow2(64) == 0x1_0000_0000_0000_0000
  {
    assert Pow2(4) == 16;
    assert Pow2(8) == 256;
    assert Pow2(12) == 0x1000;
    assert Pow2(16) == 0x1_0000;
    assert Pow2(20) == 0x10_0000;
    assert Pow2(24) == 0x100_0000;
    assert Pow2(28) == 0x1000_0000;
    assert Pow2(32) == 0x1_0000_0000;
    assert Pow2(36) == 0x10_0000_0000;
    assert Pow2(40) == 0x100_0000_0000;
    assert Pow2(44) == 0x1000_0000_0000;
    assert Pow2(48) == 0x1_0000_0000_0000;
    assert Pow2(52) == 0x10_0000_0000_0000;
    assert Pow2(56) == 0x100_0000_0000_0000;
    assert Pow2(60) == 0x1000_0000_0000_0000;
  }

  // --------------------------------------------------------------- reference

  /** FNV-1a, 32 bits, as in section 2 of draft-eastlake-fnv. */
  function Absorb(h: nat, b: Byte): nat {
    (Xor(h, b) * 16777619) % 0x1_0000_0000
  }

  function Fnv1a(bytes: seq<Byte>): (h: nat)
    ensures h < 0x1_0000_0000
  {
    if bytes == [] then 2166136261 else Absorb(Fnv1a(bytes[..|bytes| - 1]), bytes[|bytes| - 1])
  }

  // ---------------------------------------------------------- three styles

  /** Go: an unsigned 32-bit accumulator. */
  method GoSum32(bytes: seq<Byte>) returns (h: nat)
    ensures h == Fnv1a(bytes)
  {
    h := 2166136261;
    for i := 0 to |bytes|
      invariant h == Fnv1a(bytes[..i])
    {
      h := Xor(h, bytes[i]);
      h := (h * 16777619) % 0x1_0000_0000;
      assert bytes[..i + 1][..i] == bytes[..i];
    }
    assert bytes[..|bytes|] == bytes;
  }

  /** ECMAScript's conversions of a number to 32 bits. */
  function ToUint32(x: int): nat { x % 0x1_0000_0000 }

  function ToInt32(x: int): int {
    if x % 0x1_0000_0000 >= 0x8000_0000 then x % 0x1_0000_0000 - 0x1_0000_0000 else x % 0x1_0000_0000
  }

  function XorInt32(a: int, b: int): int { ToInt32(Xor(ToUint32(a), ToUint32(b))) }

  function Imul(a: int, b: int): int { ToInt32((ToUint32(a) * ToUint32(b)) % 0x1_0000_0000) }

  lemma SignRoundTrip(x: int)
    ensures ToUint32(ToInt32(x)) == x % 0x1_0000_0000
  {
  }

  lemma ImulOfSigned(x: nat)
    requires x < 0x1_0000_0000
    ensures ToUint32(Imul(ToInt32(x), 16777619)) == (x * 16777619) % 0x1_0000_0000
  {
    SignRoundTrip(x);
    SignRoundTrip((x * 16777619) % 0x1_0000_0000);
  }

  lemma XorFits(h: nat, b: Byte)
    requires h < 0x1_0000_0000
    ensures Xor(h, b) < 0x1_0000_0000
  {
    Powers();
    XorBound(h, b, 32);
  }

  lemma TypeScriptStep(h: nat, b: Byte)
    requires h < 0x1_0000_0000
    ensures ToUint32(Imul(XorInt32(h, b), 16777619)) == Absorb(h, b)
  {
    XorFits(h, b);
    assert ToUint32(h) == h && ToUint32(b) == b;
    ImulOfSigned(Xor(h, b));
  }

  /** TypeScript: signed 32-bit operators, unsigned again after every byte. */
  method TypeScriptFnv1a32(bytes: seq<Byte>) returns (h: int)
    ensures h == Fnv1a(bytes)
  {
    h := 2166136261;
    for i := 0 to |bytes|
      invariant h == Fnv1a(bytes[..i])
    {
      TypeScriptStep(h, bytes[i]);
      assert bytes[..i + 1][..i] == bytes[..i];
      h := XorInt32(h, bytes[i]);
      h := ToUint32(Imul(h, 16777619));
    }
    assert bytes[..|bytes|] == bytes;
    h := ToUint32(h);
  }

  /** Two's complement 64-bit integers, Kotlin's Long. */
  function ToUint64(x: int): nat { x % 0x1_0000_0000_0000_0000 }

  function ToInt64(x: int): int {
    if x % 0x1_0000_0000_0000_0000 >= 0x8000_0000_0000_0000
    then x % 0x1_0000_0000_0000_0000 - 0x1_0000_0000_0000_0000
    else x % 0x1_0000_0000_0000_0000
  }

  function LongXor(a: int, b: int): int { ToInt64(Xor(ToUint64(a), ToUint64(b))) }

  function LongAnd(a: int, b: int): int { ToInt64(And(ToUint64(a), ToUint64(b))) }

  function LongTimes(a: int, b: int): int { ToInt64(a * b) }

  /** A Kotlin Byte is signed. */
  function SignedByte(b: Byte): int {
    if b < 128 then b else b - 256
  }

  lemma SmallLong(x: int)
    requires 0 <= x < 0x8000_0000_0000_0000
    ensures ToUint64(x) == x && ToInt64(x) == x
  {
  }

  /** Masking a Long with k ones keeps its low k bits. */
  lemma LongMask(x: int, mask: int, k: nat, m: nat)
    requires m == Pow2(k) && mask == m - 1 && 0 < m <= 0x1_0000_0000
    ensures LongAnd(x, mask) == ToUint64(x) % m
  {
    SmallLong(mask);
    MaskIsMod(ToUint64(x), k);
    SmallLong(ToUint64(x) % m);
  }

  lemma UnsignedByte(b: Byte, mask: int)
    requires mask == 0xFF
    ensures LongAnd(SignedByte(b), mask) == b
  {
    ByteBack(b);
    assert Pow2(8) == 256;
    LongMask(SignedByte(b), mask, 8, 256);
  }

  lemma ByteBack(b: Byte)
    ensures ToUint64(SignedByte(b)) % 256 == b
  {
    if b >= 128 {
      assert SignedByte(b) % 0x1_0000_0000_0000_0000 == 0xFFFF_FFFF_FFFF_FF00 + b;
    }
  }

  lemma MaskedProduct(x: nat, mask: int)
    requires x < 0x1_0000_0000 && mask == 0xFFFF_FFFF
    ensures LongAnd(LongTimes(x, 16777619), mask) == (x * 16777619) % 0x1_0000_0000
  {
    SmallLong(x * 16777619);
    Powers();
    LongMask(x * 16777619, mask, 32, 0x1_0000_0000);
  }

  lemma {:induction false} LongXorSmall(h: nat, b: Byte)
    requires h < 0x1_0000_0000
    ensures LongXor(h, b) == Xor(h, b) < 0x1_0000_0000
  {
    XorFits(h, b);
    SmallLong(h);
    SmallLong(b);
    SmallLong(Xor(h, b));
  }

  lemma KotlinStep(h: nat, b: Byte, byteMask: int, mask: int)
    requires h < 0x1_0000_0000 && byteMask == 0xFF && mask == 0xFFFF_FFFF
    ensures LongAnd(LongTimes(LongXor(h, LongAnd(SignedByte(b), byteMask)), 16777619), mask) == Absorb(h, b)
  {
    UnsignedByte(b, byteMask);
    LongXorSmall(h, b);
    MaskedProduct(Xor(h, b), mask);
  }

  /** Kotlin: a signed 64-bit accumulator masked to 32 bits after every byte. */
  method KotlinFnv1a32(bytes: seq<Byte>) returns (h: int)
    ensures h == Fnv1a(bytes)
  {
    h := 2166136261;
    for i := 0 to |bytes|
      invariant h == Fnv1a(bytes[..i])
    {
      KotlinStep(h, bytes[i], 0xFF, 0xFFFF_FFFF);
      assert bytes[..i + 1][..i] == bytes[..i];
      h := LongXor(h, LongAnd(SignedByte(bytes[i]), 0xFF));
      h := LongAnd(LongTimes(h, 16777619), 0xFFFF_FFFF);
    }
    assert bytes[..|bytes|] == bytes;
  }

  // ------------------------------------------------------------ keep decision

  /** The user is kept when the hash, normalised to [0, 1), is below the rate. */
  predicate HashKeep(userId: seq<Byte>, rate: real) {
    Fnv1a(userId) as real / 0x1_0000_0000 as real < rate
  }

  /** Raising the rate keeps everyone already kept; rate 1 keeps all, rate 0 none. */
  lemma KeepIsMonotone(userId: seq<Byte>, low: real, high: real)
    requires low <= high
    ensures HashKeep(userId, low) ==> HashKeep(userId, high)
    ensures HashKeep(userId, 1.0) && !HashKeep(userId, 0.0)
  {
  }

  /** The three implementations take the same decision for every user and rate. */
  method KeepEverywhere(userId: seq<Byte>, rate: real) returns (go: bool, typeScript: bool, kotlin: bool)
    ensures go == typeScript == kotlin == HashKeep(userId, rate)
  {
    var g := GoSum32(userId);
    var t := TypeScriptFnv1a32(userId);
    var k := KotlinFnv1a32(userId);
    go := g as real / 0x1_0000_0000 as real < rate;
    typeScript := t as real / 0x1_0000_0000 as real < rate;
    kotlin := k as real / 0x1_0000_0000 as real < rate;
  }

  // ------------------------------------------------------------- known values

  lemma {:induction false} XorZero(a: nat)
    ensures Xor(a, 0) == a
  {
    if a > 0 {
      XorZero(a / 2);
    }
  }

  lemma XorUnfolds(a: nat, b: nat)
    ensures Xor(a, b) == 2 * Xor(a / 2, b / 2) + (a % 2 + b % 2) % 2
  {
    XorZero(0);
  }

  /** Bits above those of b stay; above is a multiple of 2^k. */
  lemma {:induction false} XorLow(above: nat, low: nat, b: nat, k: nat)
    requires Divides(k, above) && low < Pow2(k) && b < Pow2(k)
    ensures Xor(above + low, b) == above + Xor(low, b)
  {
    if k == 0 {
      XorZero(above);
      XorZero(0);
    } else {
      XorLow(above / 2, low / 2, b / 2, k - 1);
      XorDoubles(above, low, b);
    }
  }

  lemma XorDoubles(above: nat, low: nat, b: nat)
    requires above % 2 == 0 && Xor(above / 2 + low / 2, b / 2) == above / 2 + Xor(low / 2, b / 2)
    ensures Xor(above + low, b) == above + Xor(low, b)
  {
    XorUnfolds(above + low, b);
    XorUnfolds(low, b);
    assert (above + low) / 2 == above / 2 + low / 2 && (above + low) % 2 == low % 2;
  }

  /** 2^k divides n. */
  predicate Divides(k: nat, n: nat) {
    k == 0 || (n % 2 == 0 && Divides(k - 1, n / 2))
  }

  lemma AbsorbTo(h: nat, b: Byte, x: nat, next: nat)
    requires Xor(h, b) == x && (x * 16777619) % 0x1_0000_0000 == next
    ensures Absorb(h, b) == next
  {
  }

  /** FNV-1a of "a". */
  lemma KnownHash()
    ensures Fnv1a([97]) == 0xE40C292C
  {
    FirstXor();
    Product();
    AbsorbTo(0x811C9DC5, 97, 0x811C9DA4, 0xE40C292C);
    FirstByte(97, 0xE40C292C);
  }

  lemma Product()
    ensures (0x811C9DA4 * 16777619) % 0x1_0000_0000 == 0xE40C292C
  {
  }

  lemma FirstByte(b: Byte, h: nat)
    requires Absorb(0x811C9DC5, b) == h
    ensures Fnv1a([b]) == h
  {
    assert [b][..0] == [];
  }

  lemma FirstXor()
    ensures Xor(0x811C9DC5, 97) == 0x811C9DA4
  {
    assert Pow2(4) == 16 && Pow2(8) == 256;
    assert Divides(4, 0x811C9D0);
    assert Divides(8, 0x811C9D00);
    XorLow(0x811C9D00, 0xC5, 97, 8);
    LowByte();
  }

  lemma LowByte()
    ensures Xor(0xC5, 97) == 0xA4
  {
    XorZero(1);
    assert Xor(3, 1) == 2;
    assert Xor(6, 3) == 5;
    assert Xor(12, 6) == 10;
    assert Xor(24, 12) == 20;
    assert Xor(49, 24) == 41;
    assert Xor(98, 48) == 82;
  }

  /** The decision in whole numbers. */
  lemma KeptExactlyWhen(userId: seq<Byte>, rate: real)
    ensures HashKeep(userId, rate) <==> Fnv1a(userId) as real < rate * 4294967296.0
  {
  }
}
