/** The 64-bit mixer and the bucket reduction of base_ht.hpp. */
module Hash {
  import opened Words

  // ----- word operations on u64 -----

  /** `~x` */
  function Not(x: u64): u64 { UINT64_MAX - x }

  /** `x + y`, wrapping */
  function Add(x: u64, y: u64): u64 { (x + y) % 0x1_0000_0000_0000_0000 }

  /** `x << s`, where p is 2^s */
  function Shl(x: u64, p: nat): u64 { (x * p) % 0x1_0000_0000_0000_0000 }

  /** `x >> s` */
  function Shr(x: nat, s: nat): (r: nat)
    ensures r <= x
    ensures s > 0 && x > 0 ==> r < x
  {
    if s == 0 then x else Shr(x / 2, s - 1)
  }

  /** `x ^ y` */
  function Xor(x: nat, y: nat): nat {
    if x == 0 && y == 0 then 0
    else 2 * Xor(x / 2, y / 2) + (if x % 2 != y % 2 then 1 else 0)
  }

  // ----- algebra of xor and shift -----

  lemma {:induction false} XorBound(x: nat, y: nat, p: nat, bits: nat)
    requires p == Pow2(bits) && x < p && y < p
    ensures Xor(x, y) < p
    decreases bits
  {
    if bits > 0 {
      XorBound(x / 2, y / 2, p / 2, bits - 1);
    }
  }

  function Pow2(n: nat): nat { if n == 0 then 1 else 2 * Pow2(n - 1) }

  lemma Pow2Of64()
    ensures Pow2(64) == TWO64
  {
    assert Pow2(8) == 0x100;
    assert Pow2(16) == 0x10000;
    assert Pow2(24) == 0x1000000;
    assert Pow2(32) == 0x100000000;
    assert Pow2(40) == 0x10000000000;
    assert Pow2(48) == 0x1000000000000;
    assert Pow2(56) == 0x100000000000000;
  }

  lemma XorInRange(x: u64, y: u64)
    ensures Xor(x, y) < TWO64
  {
    Pow2Of64();
    XorBound(x, y, TWO64, 64);
  }

  lemma XorZero(x: nat)
    ensures Xor(x, 0) == x
  {}

  lemma {:induction false} XorSelf(x: nat)
    ensures Xor(x, x) == 0
  {
    if x > 0 { XorSelf(x / 2); }
  }

  lemma {:induction false} XorAssociative(x: nat, y: nat, z: nat)
    ensures Xor(Xor(x, y), z) == Xor(x, Xor(y, z))
    decreases x + y + z
  {
    if x > 0 || y > 0 || z > 0 {
      XorAssociative(x / 2, y / 2, z / 2);
      XorHalves(x, y);
      XorHalves(y, z);
      XorHalves(Xor(x, y), z);
      XorHalves(x, Xor(y, z));
    }
  }

  lemma XorHalves(x: nat, y: nat)
    ensures Xor(x, y) / 2 == Xor(x / 2, y / 2)
    ensures Xor(x, y) % 2 == (if x % 2 != y % 2 then 1 else 0)
  {}

  /** Xoring twice with the same word cancels. */
  lemma XorCancel(x: nat, y: nat)
    ensures Xor(Xor(x, y), y) == x
  {
    XorAssociative(x, y, y);
    XorSelf(y);
    XorZero(x);
  }

  lemma {:induction false} ShrXor(x: nat, y: nat, s: nat)
    ensures Shr(Xor(x, y), s) == Xor(Shr(x, s), Shr(y, s))
    decreases s
  {
    if s > 0 {
      XorHalves(x, y);
      ShrXor(x / 2, y / 2, s - 1);
    }
  }

  // ----- what the word operations mean -----

  lemma DivDiv(x: nat, p: nat)
    requires p > 0
    ensures x / 2 / p == x / (2 * p)
  {
    var q, r := x / 2 / p, x / 2 % p;
    assert x / 2 == q * p + r;
    DivUnique(x, 2 * p, q, 2 * r + x % 2);
  }

  lemma DivUnique(x: nat, d: nat, q: nat, r: nat)
    requires x == q * d + r && r < d
    ensures x / d == q
  {
    var e := x / d;
    assert x == e * d + x % d;
    if e < q {
      Spread(q, e, d);
      AtLeast(q - e, d);
    } else if e > q {
      Spread(e, q, d);
      AtLeast(e - q, d);
    }
  }

  lemma Spread(a: int, b: int, d: int)
    ensures (a - b) * d == a * d - b * d
  {}

  lemma AtLeast(a: nat, d: nat)
    requires a > 0
    ensures a * d >= d
  {}

  /** `x >> s` is the integral part of x / 2^s. */
  lemma {:induction false} ShrDivides(x: nat, s: nat)
    ensures Pow2(s) > 0 && Shr(x, s) == x / Pow2(s)
  {
    if s > 0 {
      ShrDivides(x / 2, s - 1);
      DivDiv(x, Pow2(s - 1));
    }
  }

  /** Bit i of x, counting from the least significant. */
  function Bit(x: nat, i: nat): nat { if i == 0 then x % 2 else Bit(x / 2, i - 1) }

  lemma {:induction false} BitIsQuotient(x: nat, i: nat)
    ensures Pow2(i) > 0 && Bit(x, i) == x / Pow2(i) % 2
  {
    if i > 0 {
      BitIsQuotient(x / 2, i - 1);
      DivDiv(x, Pow2(i - 1));
    }
  }

  /** `x ^ y` has a bit where exactly one of x and y has it. */
  lemma {:induction false} XorBits(x: nat, y: nat, i: nat)
    ensures Bit(Xor(x, y), i) == if Bit(x, i) != Bit(y, i) then 1 else 0
    decreases i
  {
    XorHalves(x, y);
    if i > 0 { XorBits(x / 2, y / 2, i - 1); }
  }

  /** A word is determined by its 64 bits, so XorBits determines Xor. */
  lemma {:induction false} BitsDetermine(x: nat, y: nat, bits: nat)
    requires x < Pow2(bits) && y < Pow2(bits)
    requires forall i :: 0 <= i < bits ==> Bit(x, i) == Bit(y, i)
    ensures x == y
    decreases bits
  {
    if bits > 0 {
      assert Bit(x, 0) == Bit(y, 0);
      forall i | 0 <= i < bits - 1 ensures Bit(x / 2, i) == Bit(y / 2, i) {
        assert Bit(x, i + 1) == Bit(y, i + 1);
      }
      BitsDetermine(x / 2, y / 2, bits - 1);
    }
  }

  // ----- the two kinds of mixing step and their inverses -----

  /** `x ^= x >> s` */
  function XorShift(x: u64, s: nat): u64 {
    XorInRange(x, Shr(x, s));
    Xor(x, Shr(x, s))
  }

  /** y ^ (y >> s) ^ (y >> 2s) ^ ... until the shifts run out. */
  function UnXorShift(y: u64, s: nat): u64
    requires s > 0
    decreases y
  {
    if y == 0 then 0
    else
      var u := UnXorShift(Shr(y, s), s);
      XorInRange(y, u);
      Xor(y, u)
  }

  lemma {:induction false} UnXorShiftXorShift(x: u64, s: nat)
    requires s > 0
    ensures UnXorShift(XorShift(x, s), s) == x
    decreases x
  {
    var y := XorShift(x, s);
    if x == 0 {
      assert Shr(0, s) == 0;
    } else {
      UnXorShiftXorShift(Shr(x, s), s);   // UnXorShift(y >> s) == x >> s
      ShrXor(x, Shr(x, s), s);
      XorCancel(x, Shr(x, s));            // y ^ (x >> s) == x, so y != 0
      XorNonzero(x, Shr(x, s));
    }
  }

  /** Different words never xor to zero. */
  lemma XorNonzero(x: nat, y: nat)
    requires x != y
    ensures Xor(x, y) != 0
  {}

  lemma {:induction false} XorShiftUnXorShift(y: u64, s: nat)
    requires s > 0
    ensures XorShift(UnXorShift(y, s), s) == y
    decreases y
  {
    if y == 0 {
      assert Shr(0, s) == 0;
    } else {
      var z := Shr(y, s);
      var u := UnXorShift(z, s);
      XorShiftUnXorShift(z, s);           // u ^ (u >> s) == z
      ShrXor(y, u, s);
      XorCancel(u, Shr(u, s));            // so (y ^ u) >> s == u
      XorCancel(y, u);
    }
  }

  /** `x += ~(x << s)`, where p is 2^s: multiplication by 1 - p, minus one. */
  function AddNotShl(x: u64, p: nat): u64 { Add(x, Not(Shl(x, p))) }

  /** `x += x << 3`: multiplication by 9. */
  function AddShl3(x: u64): u64 { Add(x, Shl(x, 8)) }

  /** Multiplication modulo 2^64. */
  function Mul(x: int, c: nat): u64 { (x * c) % 0x1_0000_0000_0000_0000 }

  lemma ModUnique(x: int, k: u64, q: int)
    requires x == k + q * TWO64
    ensures x % TWO64 == k
  {
  }

  /** The wrapped sum differs from x * (1 - p) - 1 by a multiple of 2^64. */
  lemma AddNotShlForm(x: u64, p: nat) returns (c: int)
    ensures AddNotShl(x, p) == x - x * p - 1 + c * TWO64
  {
    var sum := x + Not(Shl(x, p));
    c := x * p / TWO64 + 1 - sum / TWO64;
  }

  lemma UndoAddNotShl(x: u64, p: nat, inv: nat, m: nat)
    requires p * inv == inv - 1 + m * TWO64      // (1 - p) * inv == 1 modulo 2^64
    ensures Mul(AddNotShl(x, p) + 1, inv) == x
  {
    var c := AddNotShlForm(x, p);
    var y := AddNotShl(x, p);
    Distribute(x, p, inv, m, c);
    assert (y + 1) * inv == (x - x * p + c * TWO64) * inv;
    ModUnique((y + 1) * inv, x, c * inv - x * m);
  }

  lemma Distribute(x: int, p: int, inv: int, m: int, c: int)
    requires p * inv == inv - 1 + m * TWO64
    ensures (x - x * p + c * TWO64) * inv == x + (c * inv - x * m) * TWO64
  {
    assert x * p * inv == x * (p * inv);
    assert x * (inv - 1 + m * TWO64) == x * inv - x + x * m * TWO64;
    assert (x - x * p + c * TWO64) * inv == x * inv - x * p * inv + c * TWO64 * inv;
  }

  lemma RedoAddNotShl(y: u64, p: nat, inv: nat, m: nat)
    requires p * inv == inv - 1 + m * TWO64
    ensures AddNotShl(Mul(y + 1, inv), p) == y
  {
    hide AddNotShl, Mul;
    var z := Mul(y + 1, inv);
    var e := MulForm(y + 1, inv);
    var c := AddNotShlForm(z, p);
    var g := Redistribute(y, p, inv, m, e, z);
    ModUnique(AddNotShl(z, p), y, c + g);
  }

  /** The wrapped product differs from the product by a multiple of 2^64. */
  lemma MulForm(x: int, inv: nat) returns (e: int)
    ensures Mul(x, inv) == x * inv - e * TWO64
  {
    e := x * inv / TWO64;
  }

  lemma Redistribute(y: int, p: int, inv: int, m: int, e: int, z: int) returns (g: int)
    requires p * inv == inv - 1 + m * TWO64
    requires z == (y + 1) * inv - e * TWO64
    ensures z - z * p - 1 == y + g * TWO64
  {
    var a, ep, n := (y + 1) * inv, e * p, (y + 1) * m;
    assert (y + 1) * inv * p == (y + 1) * (p * inv);
    assert (y + 1) * (inv - 1 + m * TWO64) == a - (y + 1) + n * TWO64;
    assert z * p == (y + 1) * inv * p - ep * TWO64;
    g := ep - e - n;
  }

  lemma AddShl3Form(x: u64) returns (q: int)
    ensures AddShl3(x) == 9 * x - q * TWO64
  {
    q := (x + x * 8 % TWO64) / TWO64 + x * 8 / TWO64;
  }

  lemma UndoAddShl3(x: u64)
    ensures Mul(AddShl3(x), INV_9) == x
  {
    hide AddShl3;
    var q := AddShl3Form(x);
    ModUnique(AddShl3(x) * INV_9, x, 5 * x - q * INV_9);
  }

  lemma RedoAddShl3(y: u64)
    ensures AddShl3(Mul(y, INV_9)) == y
  {
    hide AddShl3, Mul;
    var e := MulForm(y, INV_9);
    var q := AddShl3Form(Mul(y, INV_9));
    ModUnique(AddShl3(Mul(y, INV_9)), y, 5 * y - 9 * e - q);
  }

  const INV_9: nat := 0x8E38_E38E_38E3_8E39            // 9 * INV_9 == 1 + 5 * 2^64
  const INV_32: nat := 0x1_0000_0001                   // inverse of 1 - 2^32
  const INV_13: nat := 0x10_0080_0400_2001             // inverse of 1 - 2^13
  const INV_27: nat := 0x40_0000_0800_0001             // inverse of 1 - 2^27

  // ----- the mixer -----

  /** get_key_hash before the reduction: eight assignments to the local `key`. */
  method MixInPlace(k: u64) returns (key: u64)
    ensures key == Mix(k)
  {
    key := k;
    key := Add(key, Not(Shl(key, 0x1_0000_0000)));
    key := XorShift(key, 22);
    key := Add(key, Not(Shl(key, 0x2000)));
    key := XorShift(key, 8);
    key := Add(key, Shl(key, 8));
    key := XorShift(key, 15);
    key := Add(key, Not(Shl(key, 0x800_0000)));
    key := XorShift(key, 31);
  }

  /** Two of the eight assignments: `key += ~(key << _)` and then `key ^= key >> s`. */
  function Stage(k: u64, p: nat, s: nat): u64 { XorShift(AddNotShl(k, p), s) }

  function Unstage(y: u64, inv: nat, s: nat): u64
    requires s > 0
  {
    Mul(UnXorShift(y, s) + 1, inv)
  }

  function Stage9(k: u64): u64 { XorShift(AddShl3(k), 15) }

  function Unstage9(y: u64): u64 { Mul(UnXorShift(y, 15), INV_9) }

  lemma StageInverse(k: u64, p: nat, inv: nat, m: nat, s: nat)
    requires s > 0 && p * inv == inv - 1 + m * TWO64
    ensures Unstage(Stage(k, p, s), inv, s) == k
    ensures Stage(Unstage(k, inv, s), p, s) == k
  {
    hide AddNotShl, XorShift, UnXorShift, Mul;
    UnXorShiftXorShift(AddNotShl(k, p), s);
    UndoAddNotShl(k, p, inv, m);
    RedoAddNotShl(UnXorShift(k, s), p, inv, m);
    XorShiftUnXorShift(k, s);
  }

  lemma Stage9Inverse(k: u64)
    ensures Unstage9(Stage9(k)) == k
    ensures Stage9(Unstage9(k)) == k
  {
    hide AddShl3, XorShift, UnXorShift, Mul;
    UnXorShiftXorShift(AddShl3(k), 15);
    UndoAddShl3(k);
    RedoAddShl3(UnXorShift(k, 15));
    XorShiftUnXorShift(k, 15);
  }

  function Mix(k: u64): u64 {
    Stage(Stage9(Stage(Stage(k, 0x1_0000_0000, 22), 0x2000, 8)), 0x800_0000, 31)
  }

  /**
   Mix assignment by assignment, in integer arithmetic and bitwise xor: the eight values that the local
   key takes, each determined by the one before.
   */
  lemma MixSteps(k: u64) returns (a: u64, b: nat, c: u64, d: nat, e: u64, f: nat, g: u64, h: nat)
    ensures a == (k + (TWO64 - 1 - k * 0x1_0000_0000 % TWO64)) % TWO64    // key += ~(key << 32)
    ensures b == Xor(a, a / 0x40_0000) < TWO64                            // key ^= key >> 22
    ensures c == (b + (TWO64 - 1 - b * 0x2000 % TWO64)) % TWO64           // key += ~(key << 13)
    ensures d == Xor(c, c / 0x100) < TWO64                                // key ^= key >> 8
    ensures e == (d + d * 8 % TWO64) % TWO64                              // key += key << 3
    ensures f == Xor(e, e / 0x8000) < TWO64                               // key ^= key >> 15
    ensures g == (f + (TWO64 - 1 - f * 0x800_0000 % TWO64)) % TWO64       // key += ~(key << 27)
    ensures h == Xor(g, g / 0x8000_0000) < TWO64                          // key ^= key >> 31
    ensures Mix(k) == h
  {
    ShiftAmounts();
    hide AddNotShl, AddShl3, XorShift, Xor, Shr, Pow2;
    a := AddStep(k, 0x1_0000_0000);
    b := XorStep(a, 22);
    c := AddStep(b, 0x2000);
    d := XorStep(c, 8);
    e := AddShl3(d);
    TimesNine(d);
    f := XorStep(e, 15);
    g := AddStep(f, 0x800_0000);
    h := XorStep(g, 31);
  }

  lemma AddStep(x: u64, p: nat) returns (y: u64)
    ensures y == AddNotShl(x, p) == (x + (TWO64 - 1 - x * p % TWO64)) % TWO64
  {
    y := AddNotShl(x, p);
  }

  lemma XorStep(x: u64, s: nat) returns (y: u64)
    ensures y == XorShift(x, s) == Xor(x, Shr(x, s))
    ensures Pow2(s) > 0 && Shr(x, s) == x / Pow2(s)
  {
    y := XorShift(x, s);
    hide Xor, Shr, Pow2;
    ShrDivides(x, s);
  }

  lemma TimesNine(x: u64)
    ensures AddShl3(x) == (x + x * 8 % TWO64) % TWO64
  {}

  lemma ShiftAmounts()
    ensures Pow2(22) == 0x40_0000 && Pow2(8) == 0x100 && Pow2(15) == 0x8000 && Pow2(31) == 0x8000_0000
  {
    assert Pow2(8) == 0x100;
    assert Pow2(15) == 0x8000;
    assert Pow2(22) == 0x40_0000;
    assert Pow2(31) == 0x8000_0000;
  }

  function Unmix(h: u64): u64 {
    Unstage(Unstage(Unstage9(Unstage(h, INV_27, 31)), INV_13, 8), INV_32, 22)
  }

  /** The mixer is a bijection on 64-bit words: Unmix undoes it on both sides. */
  lemma MixIsBijective(k: u64)
    ensures Unmix(Mix(k)) == k
    ensures Mix(Unmix(k)) == k
  {
    var a := Stage(k, 0x1_0000_0000, 22);
    var b := Stage(a, 0x2000, 8);
    var c := Stage9(b);
    StageInverse(k, 0x1_0000_0000, INV_32, 1, 22);
    StageInverse(a, 0x2000, INV_13, 2, 8);
    Stage9Inverse(b);
    StageInverse(c, 0x800_0000, INV_27, 0x2_0000, 31);

    var c' := Unstage(k, INV_27, 31);
    var b' := Unstage9(c');
    var a' := Unstage(b', INV_13, 8);
    StageInverse(k, 0x800_0000, INV_27, 0x2_0000, 31);
    Stage9Inverse(c');
    StageInverse(b', 0x2000, INV_13, 2, 8);
    StageInverse(a', 0x1_0000_0000, INV_32, 1, 22);
  }

  // ----- the bucket reduction -----

  /** get_bucket: reduces only when the hash is strictly greater than the table size. */
  function GetBucket(hash: u64, n: u64): u64
    requires n > 0
  {
    if hash > n then hash % n else hash
  }

  /** get_key_hash: the index a table of n buckets uses for a key. */
  function BucketOf(key: u64, n: u64): u64
    requires n > 0
  {
    GetBucket(Mix(key), n)
  }

  /** The reduction is the remainder, except that a hash equal to the table size is left as it is. */
  lemma BucketIsRemainder(hash: u64, n: u64)
    requires n > 0
    ensures GetBucket(hash, n) == if hash == n then n else hash % n
    ensures GetBucket(hash, n) <= n && GetBucket(hash, n) % n == hash % n
  {
    ModSmall(hash % n, n);
    if hash < n { ModSmall(hash, n); }
  }

  lemma ModSmall(x: nat, n: nat)
    requires x < n
    ensures x % n == x
  {
    DivUnique(x, n, 0, x);
  }

  /**
   The index is the remainder of the mixed hash, and so in range, except when the mixed hash equals the
   table size; for each table size that happens for exactly one key.
   */
  lemma BucketInRangeExactly(key: u64, n: u64)
    requires n > 0
    ensures BucketOf(key, n) < n <==> Mix(key) != n
    ensures Mix(key) == n <==> key == Unmix(n)
    ensures BucketOf(Unmix(n), n) == n
    ensures BucketOf(key, n) == if Mix(key) == n then n else Mix(key) % n
  {
    BucketIsRemainder(Mix(key), n);
    MixIsBijective(key);
    MixIsBijective(n);
  }
}
