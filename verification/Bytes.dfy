/** Bytes, fixed-width unsigned integers and their network byte order.

    The C++ side writes integers byte by byte into a buffer with shifts; the Python side uses
    `struct` with the `!` prefix.  Both are compared here with the same two functions. */
module Bytes {

  const U8_LIMIT: nat := 0x100
  const U16_LIMIT: nat := 0x1_0000
  const U32_LIMIT: nat := 0x1_0000_0000
  const U64_LIMIT: nat := 0x1_0000_0000_0000_0000

  type Byte = n: nat | n < U8_LIMIT
  type U16 = n: nat | n < U16_LIMIT
  type U32 = n: nat | n < U32_LIMIT
  type U64 = n: nat | n < U64_LIMIT

  function Pow256(width: nat): (p: nat)
    ensures p >= 1
  {
    if width == 0 then 1 else 256 * Pow256(width - 1)
  }

  lemma Pow256Values()
    ensures Pow256(1) == U8_LIMIT && Pow256(2) == U16_LIMIT && Pow256(4) == U32_LIMIT && Pow256(8) == U64_LIMIT
  {
    assert Pow256(3) == 0x100_0000;
    assert Pow256(5) == 0x100_0000_0000;
    assert Pow256(6) == 0x1_0000_0000_0000;
    assert Pow256(7) == 0x100_0000_0000_0000;
  }

  /** Byte `i` of the `width`-byte form of `n`: the value shifted right and cast to `std::uint8_t`. */
  function Digit(n: nat, width: nat, i: nat): Byte
    requires i < width
  {
    n / Pow256(width - 1 - i) % 256
  }

  /** The `width` low-order bytes of `n`, most significant first. */
  function BigEndian(n: nat, width: nat): (s: seq<Byte>)
    ensures |s| == width
  {
    seq(width, i requires 0 <= i < width => Digit(n, width, i))
  }

  /** The `width` bytes of `s` at `start` are the big-endian form of `n`. */
  predicate Holds(s: seq<Byte>, start: nat, width: nat, n: nat)
    requires start + width <= |s|
  {
    forall i :: start <= i < start + width ==> s[i] == Digit(n, width, i - start)
  }

  /** The value of the `width` bytes of `s` at `start`, accumulated from the most significant. */
  function Field(s: seq<Byte>, start: nat, width: nat): (n: nat)
    requires start + width <= |s|
    ensures n < Pow256(width)
    decreases width, |s|
  {
    if width == 0 then 0 else Field(s, start, width - 1) * 256 + s[start + width - 1]
  }

  lemma DigitStep(n: nat, width: nat, i: nat)
    requires i < width
    ensures Digit(n, width + 1, i) == Digit(n / 256, width, i)
  {
    DivideTwice(n, Pow256(width - 1 - i));
    assert Pow256(width + 1 - 1 - i) == 256 * Pow256(width - 1 - i);
  }

  lemma LastDigit(n: nat, width: nat)
    requires width > 0
    ensures Digit(n, width, width - 1) == n % 256
  {
    assert Pow256(0) == 1;
  }

  /** Reading undoes writing, for every value that fits in the width. */
  lemma {:induction false} ReadOfWrite(s: seq<Byte>, start: nat, width: nat, n: nat)
    requires start + width <= |s| && n < Pow256(width) && Holds(s, start, width, n)
    ensures Field(s, start, width) == n
    decreases width
  {
    if width > 0 {
      assert Holds(s, start, width - 1, n / 256) by {
        forall i | start <= i < start + width - 1 ensures s[i] == Digit(n / 256, width - 1, i - start) {
          DigitStep(n, width - 1, i - start);
        }
      }
      ReadOfWrite(s, start, width - 1, n / 256);
      LastDigit(n, width);
    }
  }

  /** Writing undoes reading, for every byte string. */
  lemma {:induction false} WriteOfRead(s: seq<Byte>, start: nat, width: nat)
    requires start + width <= |s|
    ensures Holds(s, start, width, Field(s, start, width))
    decreases width
  {
    if width > 0 {
      var n := Field(s, start, width);
      WriteOfRead(s, start, width - 1);
      assert n / 256 == Field(s, start, width - 1);
      LastDigit(n, width);
      forall i | start <= i < start + width - 1 ensures s[i] == Digit(n, width, i - start) {
        DigitStep(n, width - 1, i - start);
      }
    }
  }

  lemma HeldBytes(s: seq<Byte>, start: nat, width: nat, n: nat)
    requires start + width <= |s| && Holds(s, start, width, n)
    ensures s[start..start + width] == BigEndian(n, width)
  {
  }

  /** A field depends on nothing but its own bytes. */
  lemma {:induction false} FieldIsLocal(s: seq<Byte>, t: seq<Byte>, start: nat, width: nat)
    requires start + width <= |s| && start + width <= |t|
    requires forall i :: start <= i < start + width ==> s[i] == t[i]
    ensures Field(s, start, width) == Field(t, start, width)
    decreases width
  {
    if width > 0 {
      FieldIsLocal(s, t, start, width - 1);
    }
  }

  lemma DivideTwice(n: nat, p: nat)
    requires p > 0
    ensures 256 * p > 0 && n / 256 / p == n / (256 * p)
  {
    var q := n / 256 / p;
    var r := n / 256 - q * p;
    var low := n % 256;
    assert n == 256 * (q * p + r) + low;
    assert n == (256 * p) * q + (256 * r + low);
    assert 0 <= 256 * r + low < 256 * p;
    QuotientUnique(n, 256 * p, q, 256 * r + low);
  }

  lemma QuotientUnique(n: nat, d: nat, q: nat, r: nat)
    requires d > 0 && r < d && n == d * q + r
    ensures n / d == q
  {
    var q' := n / d;
    assert n == d * q' + n % d;
    if q' > q {
      MulMonotone(d, q + 1, q');
      MulMonotone(d, q, q);
    } else if q' < q {
      MulMonotone(d, q' + 1, q);
      MulMonotone(d, q', q');
    }
  }

  lemma MulMonotone(d: nat, a: nat, b: nat)
    requires a <= b
    ensures d * a <= d * b && d * (a + 1) == d * a + d
  {
    assert d * b == d * a + d * (b - a);
  }
}
