/** Fixed-width machine arithmetic used by the whole program: 32-bit words, the bitwise `&` that
    masks a ring cursor, and C++ division, which truncates toward zero. */
module Machine {

  const TWO_32: nat := 0x1_0000_0000
  const TWO_64: nat := 0x1_0000_0000_0000_0000

  datatype Option<+T> = None | Some(value: T)

  /** The low 32 bits of x, read as an unsigned number. */
  function Word(x: int): (w: nat)
    ensures w < TWO_32
  {
    x % 0x1_0000_0000
  }

  /** The low 32 bits of x, read as a two's-complement number. */
  function Int32(x: int): (i: int)
    ensures -0x8000_0000 <= i < 0x8000_0000
    ensures Word(i) == Word(x)
  {
    var w := Word(x);
    if w < 0x8000_0000 then w else w - TWO_32
  }

  predicate FitsInt32(x: int) {
    -0x8000_0000 <= x < 0x8000_0000
  }

  /** C++ `/` for a positive divisor: rounds toward zero, unlike Dafny's Euclidean division. */
  function TruncDiv(x: int, d: int): int
    requires d > 0
  {
    if x >= 0 then x / d else -((-x) / d)
  }

  /** A value that fits 32 bits survives the cast. */
  lemma FittingValueIsKept(x: int)
    requires FitsInt32(x)
    ensures Int32(x) == x
  {
    if x >= 0 {
      assert Word(x) == x;
    } else {
      assert Word(x) == x + TWO_32;
    }
  }

  lemma WordTwice(x: int)
    ensures Int32(Word(x)) == Int32(x)
  {
    ModUnique(Word(x), TWO_32, 0, Word(x));
  }

  /** uint32 to int32 and back is the identity on every uint32. */
  lemma UnsignedSurvivesSignedCast(w: nat)
    requires w < TWO_32
    ensures Word(Int32(w)) == w
  {
  }

  // ----- Bitwise and -----

  /** Bitwise `&` on unsigned numbers, bit by bit. */
  function And(x: nat, y: nat): nat
    decreases x
  {
    if x == 0 || y == 0 then 0
    else 2 * And(x / 2, y / 2) + (if x % 2 == 1 && y % 2 == 1 then 1 else 0)
  }

  function Pow2(k: nat): (p: nat)
    ensures p > 0
  {
    if k == 0 then 1 else 2 * Pow2(k - 1)
  }

  /** The template constraint on the ring's capacity, `(Capacity & (Capacity - 1)) == 0`, with
      the zero capacity it also admits ruled out, and `Capacity` an `int`. */
  predicate RingCapacity(cap: nat) {
    0 < cap < 0x8000_0000 && And(cap, cap - 1) == 0
  }

  lemma {:induction false} AndSelf(x: nat)
    ensures And(x, x) == x
  {
    if x > 0 {
      AndSelf(x / 2);
    }
  }

  /** Masking with 2^k - 1 keeps the remainder modulo 2^k. */
  lemma {:induction false} AndMask(x: nat, k: nat)
    ensures And(x, Pow2(k) - 1) == x % Pow2(k)
  {
    if k == 0 {
      ModUnique(x, 1, x, 0);
    } else if x == 0 {
      ModUnique(0, Pow2(k), 0, 0);
    } else {
      AndMask(x / 2, k - 1);
      MaskOneMoreBit(x, Pow2(k - 1));
    }
  }

  lemma MaskOneMoreBit(x: nat, m: nat)
    requires m > 0 && And(x / 2, m - 1) == (x / 2) % m
    ensures And(x, 2 * m - 1) == x % (2 * m)
  {
    DoubleMod(x, m);
    AndStep(x, m);
  }

  lemma AndStep(x: nat, m: nat)
    requires m > 0
    ensures And(x, 2 * m - 1) == 2 * And(x / 2, m - 1) + x % 2
  {
    assert (2 * m - 1) / 2 == m - 1 && (2 * m - 1) % 2 == 1;
  }

  lemma DoubleMod(x: nat, m: nat)
    requires m > 0
    ensures x % (2 * m) == 2 * ((x / 2) % m) + x % 2
  {
    var q, r := (x / 2) / m, (x / 2) % m;
    assert x == (2 * m) * q + (2 * r + x % 2) by {
      assert x / 2 == m * q + r;
    }
    ModUnique(x, 2 * m, q, 2 * r + x % 2);
  }

  /** A quotient and a remainder in range are the quotient and the remainder. */
  lemma ModUnique(x: int, d: nat, q: int, r: int)
    requires 0 <= r < d
    requires x == d * q + r
    ensures x % d == r && x / d == q
  {
    var e := x / d - q;
    MulAtLeast(d, e);
    assert d * e == r - x % d by {
      assert x == d * (x / d) + x % d;
    }
    assert e == 0;
  }

  lemma MulAtLeast(d: nat, e: int)
    ensures e >= 1 ==> d * e >= d
    ensures e <= -1 ==> d * e <= 0 - d
  {
    if e >= 1 {
      assert d * e == d * (e - 1) + d;
    } else if e <= -1 {
      assert d * e == d * (e + 1) - d;
      assert d * (0 - (e + 1)) >= 0;
    }
  }

  /** Adding a multiple of the modulus changes nothing. */
  lemma ModShift(x: int, q: int, d: nat)
    requires d > 0
    ensures (x + d * q) % d == x % d
  {
    ModUnique(x + d * q, d, x / d + q, x % d);
  }

  /** A power of two above one is twice another, and no odd number. */
  lemma HalfOfPower(cap: nat)
    requires cap > 1
    ensures (exists k: nat :: cap == Pow2(k)) <==> cap % 2 == 0 && exists k: nat :: cap / 2 == Pow2(k)
  {
    if exists k: nat :: cap == Pow2(k) {
      var k: nat :| cap == Pow2(k);
      assert k > 0 && Pow2(k) == 2 * Pow2(k - 1);
      assert cap / 2 == Pow2(k - 1);
    }
    if cap % 2 == 0 && exists k: nat :: cap / 2 == Pow2(k) {
      var k: nat :| cap / 2 == Pow2(k);
      assert cap == Pow2(k + 1);
    }
  }

  /** The source's capacity test accepts exactly the powers of two. */
  lemma {:induction false} CapacityTestMeansPowerOfTwo(cap: nat)
    requires cap > 0
    ensures And(cap, cap - 1) == 0 <==> exists k: nat :: cap == Pow2(k)
  {
    var h := cap / 2;
    if cap == 1 {
      assert Pow2(0) == 1;
    } else {
      HalfOfPower(cap);
      if cap % 2 == 1 {
        assert (cap - 1) / 2 == h;
        AndSelf(h);
      } else {
        assert (cap - 1) / 2 == h - 1;
        assert And(cap, cap - 1) == 2 * And(h, h - 1);
        CapacityTestMeansPowerOfTwo(h);
      }
    }
  }

  // ----- Ring cursors -----

  /** The cell a cursor names: `cursor & kMask`, on the two's-complement bits of an `int`. */
  function CellOf(cursor: int, cap: nat): nat
    requires cap > 0
  {
    And(Word(cursor), cap - 1)
  }

  /** An atomic `int` fetch_add wraps silently at 2^31. */
  function Bump(cursor: int): int {
    Int32(cursor + 1)
  }

  lemma {:induction false} PowersDivide(a: nat, b: nat)
    requires a <= b
    ensures Pow2(b) == Pow2(a) * Pow2(b - a)
    decreases b
  {
    if a < b {
      PowersDivide(a, b - 1);
      DoubleProduct(Pow2(a), Pow2(b - 1 - a));
    }
  }

  lemma DoubleProduct(x: nat, y: nat)
    ensures x * (2 * y) == 2 * (x * y)
  {
  }

  lemma {:induction false} PowersGrow(a: nat, b: nat)
    requires a <= b
    ensures Pow2(a) <= Pow2(b)
    decreases b
  {
    if a < b { PowersGrow(a, b - 1); }
  }

  lemma PowerOf32()
    ensures Pow2(32) == TWO_32 && Pow2(31) == 0x8000_0000
  {
    assert Pow2(8) == 256;
    PowersDivide(8, 16);
    PowersDivide(16, 32);
    assert Pow2(32) == 2 * Pow2(31);
  }

  /** Masking a 32-bit cursor is the cursor modulo the capacity, negative values and wrapped
      values included: the capacity divides 2^32. */
  lemma CellIsCursorMod(cursor: int, cap: nat)
    requires RingCapacity(cap)
    ensures CellOf(cursor, cap) == cursor % cap
  {
    var k := CapacityExponent(cap);
    AndMask(Word(cursor), k);
    var h, q := Pow2(32 - k), cursor / 0x1_0000_0000;
    assert cap * (h * q) == (cap * h) * q;
    ModShift(Word(cursor), h * q, cap);
  }

  lemma CapacityExponent(cap: nat) returns (k: nat)
    requires RingCapacity(cap)
    ensures k < 32 && cap == Pow2(k) && Pow2(k) * Pow2(32 - k) == TWO_32
  {
    CapacityTestMeansPowerOfTwo(cap);
    k :| cap == Pow2(k);
    PowerOf32();
    if k >= 31 { PowersGrow(31, k); }
    PowersDivide(k, 32);
  }

  /** A bump moves to the cyclically next cell, also across the wrap. */
  lemma BumpMovesOneCell(cursor: int, cap: nat)
    requires RingCapacity(cap)
    ensures CellOf(Bump(cursor), cap) == (cursor + 1) % cap == (CellOf(cursor, cap) + 1) % cap
  {
    assert CellOf(Bump(cursor), cap) == CellOf(cursor + 1, cap);
    CellIsCursorMod(cursor + 1, cap);
    CellIsCursorMod(cursor, cap);
    AddMod(cursor, 1, cap);
  }

  lemma AddMod(x: int, y: int, d: nat)
    requires d > 0
    ensures (x % d + y) % d == (x + y) % d
  {
    ModShift(x % d + y, x / d, d);
  }
}
