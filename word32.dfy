/**
 * Java's 32-bit `int` as the interpreter uses it: registers, immediates,
 * labels, addresses, memory words and the program counter are `i32` values
 * with explicit two's-complement wrap-around.  The four bytes of a word are
 * read and written through Java's little-endian `ByteBuffer` view, written
 * out as base-256 digits of the word's unsigned value.
 */
module Word32 {

  const TWO32: int := 0x1_0000_0000
  const MIN_INT: int := -0x8000_0000
  const MAX_INT: int := 0x7fff_ffff

  /** The values of a Java `int`. */
  type i32 = x: int | -0x8000_0000 <= x <= 0x7fff_ffff

  /** The values of a byte, read as unsigned. */
  type byte = x: int | 0 <= x < 256

  function Abs(x: int): nat { if x < 0 then -x else x }

  /** Java's narrowing of an exact result to `int`: keep the low 32 bits. */
  function Wrap(x: int): (r: i32)
    ensures (x - r) % TWO32 == 0
    ensures MIN_INT <= x <= MAX_INT ==> r == x
  {
    var u := x % TWO32;
    if u <= MAX_INT then u else u - TWO32
  }

  /**
   * `getUnsignedInt`: `x & 0xffffffffL`, the 32 bits of an int read as an
   * unsigned number; wrapping it back gives the int again.
   */
  function Unsigned(x: i32): (r: int)
    ensures 0 <= r < TWO32
    ensures Wrap(r) == x
    ensures x >= 0 ==> r == x
    ensures x < 0 ==> r == x + TWO32
  {
    x % TWO32
  }

  /** Java's `a / b` on integers: the quotient rounded toward zero. */
  function Quot(a: int, b: int): int
    requires b != 0
  {
    var m := Abs(a) / Abs(b);
    if (a < 0) == (b < 0) then m else -m
  }

  /** Java's `a % b` on integers: the remainder of the truncated division. */
  function Rem(a: int, b: int): (r: int)
    requires b != 0
    ensures a == Quot(a, b) * b + r
    ensures Abs(r) < Abs(b)
    ensures r != 0 ==> (r < 0 <==> a < 0)
  {
    var m := Abs(a) % Abs(b);
    var q := Abs(a) / Abs(b);
    assert Abs(a) == q * Abs(b) + m;
    if a < 0 then -m else m
  }

  /** 2 to the power `n`. */
  function Pow2(n: nat): (p: nat)
    ensures p >= 1
  {
    if n == 0 then 1 else 2 * Pow2(n - 1)
  }

  /** Java's `x << s`: only the low five bits of the shift amount count. */
  function ShiftLeft(x: i32, s: i32): i32
  {
    Wrap(x * Pow2(s % 32))
  }

  /** Java's `x >> s`: an arithmetic shift by the low five bits of `s`. */
  function ShiftRight(x: i32, s: i32): i32
  {
    Halve(x, s % 32)
  }

  /**
   * `x` shifted right arithmetically `n` times; each step rounds toward
   * minus infinity, as Dafny's division by a positive number does.
   */
  function Halve(x: i32, n: nat): i32
    decreases n
  {
    if n == 0 then x else Halve(x / 2, n - 1)
  }

  /** The 32 bits of an int. */
  function ToBits(x: i32): bv32
  {
    Unsigned(x) as bv32
  }

  /** The int whose 32 bits are `w`. */
  function FromBits(w: bv32): i32
  {
    Wrap(w as int)
  }

  function And(a: i32, b: i32): i32 { FromBits(ToBits(a) & ToBits(b)) }
  function Or(a: i32, b: i32): i32 { FromBits(ToBits(a) | ToBits(b)) }
  function Xor(a: i32, b: i32): i32 { FromBits(ToBits(a) ^ ToBits(b)) }

  /** `(a >> 2) << 2`: the address of the aligned word that holds byte `a`. */
  function AlignDown(a: i32): (r: i32)
    ensures r == a - a % 4
  {
    QuarterShift(a);
    FourTimes(a / 4);
    ShiftLeft(ShiftRight(a, 2), 2)
  }

  /** Shifting right by two divides by four, rounding down. */
  lemma QuarterShift(a: i32)
    ensures ShiftRight(a, 2) == a / 4
  {
    var q := a / 4;
    assert a / 2 == 2 * q + (a % 4) / 2;
    assert Halve(a, 2) == Halve(a / 2, 1) == Halve((a / 2) / 2, 0);
  }

  /** Shifting a quarter of an int left by two multiplies it by four, without wrapping. */
  lemma FourTimes(q: int)
    requires MIN_INT <= 4 * q <= MAX_INT
    ensures MIN_INT <= q <= MAX_INT && ShiftLeft(q, 2) == 4 * q
  {
    assert Pow2(2) == 4;
  }

  /**
   * `a & 0x3`: which of the four bytes of its aligned word byte `a` is; for a
   * two's-complement int the two low bits are `a` modulo 4.
   */
  function LaneIndex(a: i32): (k: int)
    ensures 0 <= k < 4
    ensures AlignDown(a) + k == a
  {
    a % 4
  }

  /**
   * Byte `k` of a word in Java's little-endian `ByteBuffer` view: byte 0 is
   * the least significant one.
   */
  function Lane(w: i32, k: int): byte
    requires 0 <= k < 4
  {
    Digit(Unsigned(w), k)
  }

  /** Digit `k` of `u` in base 256. */
  function Digit(u: nat, k: nat): byte
  {
    if k == 0 then u % 256 else Digit(u / 256, k - 1)
  }

  /** The four bytes of a word, digit by digit. */
  lemma LaneDigits(w: i32)
    ensures var u := Unsigned(w);
            Lane(w, 0) == u % 256 && Lane(w, 1) == (u / 256) % 256 &&
            Lane(w, 2) == (u / 256 / 256) % 256 && Lane(w, 3) == (u / 256 / 256 / 256) % 256
  {
    var u := Unsigned(w);
    assert Digit(u, 3) == Digit(u / 256, 2) == Digit(u / 256 / 256, 1) == Digit(u / 256 / 256 / 256, 0);
    assert Digit(u, 2) == Digit(u / 256, 1) == Digit(u / 256 / 256, 0);
    assert Digit(u, 1) == Digit(u / 256, 0);
  }

  /** `ByteBuffer.getInt` in little-endian order: four bytes make one word. */
  function Pack(b0: byte, b1: byte, b2: byte, b3: byte): i32
  {
    Wrap(b0 + 256 * (b1 + 256 * (b2 + 256 * b3)))
  }

  /** The word `w` with byte `k` replaced by `b`. */
  function SetLane(w: i32, k: int, b: byte): i32
    requires 0 <= k < 4
  {
    Pack(if k == 0 then b else Lane(w, 0),
         if k == 1 then b else Lane(w, 1),
         if k == 2 then b else Lane(w, 2),
         if k == 3 then b else Lane(w, 3))
  }

  /** Java's `(int)` of a `byte`: sign extension. */
  function SignExtend(b: byte): (r: i32)
    ensures -128 <= r < 128
  {
    if b < 0x80 then b else b - 256
  }

  /** Java's `(byte)` of an `int`: its low eight bits. */
  function LowByte(x: i32): byte
  {
    x % 256
  }

  // ---------------------------------------------------------------------
  // Properties

  lemma DivBy256(x: int, q: int, r: int)
    requires x == 256 * q + r && 0 <= r < 256
    ensures x / 256 == q && x % 256 == r
  {
  }

  lemma UnsignedWrap(x: int)
    requires 0 <= x < TWO32
    ensures Unsigned(Wrap(x)) == x
  {
  }

  /** Unpacking a packed word gives back its four bytes. */
  lemma PackLanes(b0: byte, b1: byte, b2: byte, b3: byte)
    ensures var w := Pack(b0, b1, b2, b3);
            Lane(w, 0) == b0 && Lane(w, 1) == b1 && Lane(w, 2) == b2 && Lane(w, 3) == b3
  {
    var y2 := b2 + 256 * b3;
    var y1 := b1 + 256 * y2;
    var x := b0 + 256 * y1;
    LaneDigits(Wrap(x));
    UnsignedWrap(x);
    DivBy256(x, y1, b0);
    DivBy256(y1, y2, b1);
    DivBy256(y2, b3, b2);
    DivBy256(b3, 0, b3);
  }

  /** Packing the four bytes of a word gives back the word. */
  lemma LanesPack(w: i32)
    ensures Pack(Lane(w, 0), Lane(w, 1), Lane(w, 2), Lane(w, 3)) == w
  {
    var u := Unsigned(w);
    var u1 := u / 256;
    var u2 := u1 / 256;
    var u3 := u2 / 256;
    LaneDigits(w);
    assert u3 < 256;
    assert u == Lane(w, 0) + 256 * (Lane(w, 1) + 256 * (Lane(w, 2) + 256 * Lane(w, 3)));
  }

  /** Replacing byte `k` makes it `b` and keeps the other three bytes. */
  lemma SetLaneLanes(w: i32, k: int, b: byte)
    requires 0 <= k < 4
    ensures Lane(SetLane(w, k, b), k) == b
    ensures forall j :: 0 <= j < 4 && j != k ==> Lane(SetLane(w, k, b), j) == Lane(w, j)
  {
    PackLanes(if k == 0 then b else Lane(w, 0),
              if k == 1 then b else Lane(w, 1),
              if k == 2 then b else Lane(w, 2),
              if k == 3 then b else Lane(w, 3));
  }

  /** Writing a byte back over itself leaves the word as it was. */
  lemma SetLaneSame(w: i32, k: int)
    requires 0 <= k < 4
    ensures SetLane(w, k, Lane(w, k)) == w
  {
    LanesPack(w);
  }

  /**
   * Java's `value >> 8` on a word: its bytes move down one place and the
   * sign fills the top byte.
   */
  lemma ShiftByteLanes(w: i32)
    ensures Lane(w / 256, 0) == Lane(w, 1) && Lane(w / 256, 1) == Lane(w, 2) && Lane(w / 256, 2) == Lane(w, 3)
    ensures Lane(w / 256, 3) == if w < 0 then 0xff else 0
  {
    var u := Unsigned(w);
    var u1 := u / 256;
    var u2 := u1 / 256;
    var u3 := u2 / 256;
    var v := Unsigned(w / 256);
    LaneDigits(w);
    LaneDigits(w / 256);
    if w < 0 {
      DivBy256(w + TWO32, w / 256 + 0x100_0000, w % 256);
      assert v == u1 + 0xff00_0000;
      DivBy256(v, u2 + 0xff_0000, u1 % 256);
      DivBy256(u2 + 0xff_0000, u3 + 0xff00, u2 % 256);
      DivBy256(u3 + 0xff00, 0xff, u3);
    } else {
      assert v == u1;
    }
  }

  /** Java's `value >> 8` applied `k` times. */
  function Shifted(w: i32, k: nat): i32
  {
    if k == 0 then w else Shifted(w, k - 1) / 256
  }

  /** After `k` shifts by eight bits, the low byte is byte `k` of the word. */
  lemma ShiftedLane(w: i32, k: nat)
    requires k < 4
    ensures Lane(Shifted(w, k), 0) == Lane(w, k)
  {
    var w1 := Shifted(w, 1);
    var w2 := Shifted(w, 2);
    assert Shifted(w, 0) == w;
    assert w1 == w / 256;
    assert w2 == w1 / 256;
    assert Shifted(w, 3) == w2 / 256;
    ShiftByteLanes(w);
    ShiftByteLanes(w1);
    ShiftByteLanes(w2);
  }

  /** A byte stored through `(byte)` and read back through `(int)` is the low byte, sign-extended. */
  lemma SignExtendLowByte(x: i32)
    ensures LowByte(SignExtend(LowByte(x))) == LowByte(x)
    ensures -128 <= x < 128 ==> SignExtend(LowByte(x)) == x
  {
  }

  /** Wrapping an intermediate sum does not change the wrapped total. */
  lemma WrapAddWrap(x: int, y: int)
    ensures Wrap(Wrap(x) + y) == Wrap(x + y)
  {
    var k := (x - Wrap(x)) / TWO32;
    assert x + y == (Wrap(x) + y) + k * TWO32;
    ModShift(Wrap(x) + y, k);
  }

  lemma ModShift(a: int, k: int)
    ensures (a + k * TWO32) % TWO32 == a % TWO32
  {
  }

  /**
   * A counter kept as an `int` and incremented: it is the exact count
   * wrapped, it is a multiple of 4 exactly when the exact count is, and
   * adding it to a base wraps to the exact sum.
   */
  lemma CounterStep(n: int, b: int)
    ensures Wrap(Wrap(n) + 1) == Wrap(n + 1)
    ensures (Wrap(n + 1) % 4 == 0) == ((n + 1) % 4 == 0)
    ensures Wrap(b + Wrap(n + 1)) == Wrap(b + (n + 1))
  {
    WrapAddWrap(n, 1);
    WrapAddWrap(n + 1, b);
    WrapMod4(n + 1);
  }

  /** Wrapping removes a multiple of 2^32, which keeps the remainder by 4. */
  lemma WrapMod4(x: int)
    ensures Wrap(x) % 4 == x % 4
  {
    var u := x % TWO32;
    var q := x / TWO32;
    assert x == 4 * (0x4000_0000 * q) + u;
    FourMultiple(0x4000_0000 * q, u);
    FourMultiple(-0x4000_0000, u);
  }

  /** Adding a multiple of 4 keeps the remainder by 4. */
  lemma FourMultiple(m: int, u: int)
    ensures (4 * m + u) % 4 == u % 4
  {
  }

  /** Stepping by less than a full turn never comes back to the same word. */
  lemma WrapStepDistinct(a: i32, d: int)
    requires 0 < d < TWO32
    ensures Wrap(a + d) != a
  {
  }
}
