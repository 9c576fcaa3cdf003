/** The CRC-32 of section 8 of RFC 1952.

    A 32-bit machine word is modelled by its 32 bits (index 0 is the lowest), so that shifts,
    masks and exclusive-or act bit by bit and nothing is lost to unbounded integers. */
module Crc32 {
  import opened Bytes
  import opened Folds

  /** `std::uint32_t`. */
  type Word = w: seq<bool> | |w| == 32 witness seq(32, _ => false)

  /** 0xEDB88320, lowest bit first. */
  const POLYNOMIAL: Word :=
    Nibble(0x0) + Nibble(0x2) + Nibble(0x3) + Nibble(0x8) + Nibble(0x8) + Nibble(0xB) + Nibble(0xD) + Nibble(0xE)

  function Nibble(n: nat): (s: seq<bool>)
    ensures |s| == 4
  {
    [n % 2 == 1, n / 2 % 2 == 1, n / 4 % 2 == 1, n / 8 % 2 == 1]
  }

  const ALL_ONES: Word := Repeat(true)
  const ZERO: Word := Repeat(false)

  function Repeat(b: bool): Word {
    seq(32, i => b)
  }

  /** One step of the reflected shift register. */
  function Shift(w: Word): Word {
    seq(32, i requires 0 <= i < 32 => (i < 31 && w[i + 1]) != (POLYNOMIAL[i] && w[0]))
  }

  function Xor(a: Word, b: Word): Word {
    seq(32, i requires 0 <= i < 32 => a[i] != b[i])
  }

  function Not(w: Word): Word {
    seq(32, i requires 0 <= i < 32 => !w[i])
  }

  /** The bits of a byte in the order in which they reach the register: least significant first. */
  function BitsOf(b: Byte): (s: seq<bool>)
    ensures |s| == 8
  {
    BitsFrom(b, BYTE_BITS)
  }

  const BYTE_BITS: nat := 8

  function BitsFrom(n: nat, count: nat): (s: seq<bool>)
    ensures |s| == count
    decreases count
  {
    if count == 0 then [] else [n % 2 == 1] + BitsFrom(n / 2, count - 1)
  }

  /** The low end of the register loaded with the given bits. */
  function Load(bits: seq<bool>): Word {
    seq(32, i requires 0 <= i < 32 => i < |bits| && bits[i])
  }

  /** A data byte is xored into the low end of the register and shifted through. */
  function ByteStep(w: Word, b: Byte): Word {
    Iterate(Shift, Xor(w, Load(BitsOf(b))), BYTE_BITS)
  }

  function Checksum(data: seq<Byte>): Word {
    Not(Run(ByteStep, ALL_ONES, data))
  }

  // ---------------------------------------------------------------- one-step laws

  lemma TopOfPolynomial()
    ensures POLYNOMIAL[31]
  {
    assert POLYNOMIAL[28..] == Nibble(0xE);
  }

  lemma ShiftLinear(a: Word, b: Word)
    ensures Shift(Xor(a, b)) == Xor(Shift(a), Shift(b))
  {
  }

  /** A shift that leaves the highest bit clear lost a clear bit, and so can be undone. */
  lemma ShiftBack(w: Word, k: nat)
    requires k < 32 && forall i :: 31 - k <= i < 32 ==> !Shift(w)[i]
    ensures !w[0] && forall i :: 32 - k <= i < 32 ==> !w[i]
  {
    TopOfPolynomial();
    assert Shift(w)[31] == (POLYNOMIAL[31] && w[0]);
    forall i | 32 - k <= i < 32 ensures !w[i] {
      assert Shift(w)[i - 1] == (w[i] != (POLYNOMIAL[i - 1] && w[0]));
    }
  }

  /** Every bit but the lowest comes from the one above it. */
  lemma ShiftBit(w: Word, i: nat)
    requires 0 < i < 32
    ensures Shift(w)[i - 1] == (w[i] != (POLYNOMIAL[i - 1] && w[0]))
  {
  }

  lemma ShiftInjective(a: Word, b: Word)
    requires Shift(a) == Shift(b)
    ensures a == b
  {
    TopOfPolynomial();
    assert Shift(a)[31] == (POLYNOMIAL[31] && a[0]) && Shift(b)[31] == (POLYNOMIAL[31] && b[0]);
    assert a[0] == b[0];
    forall i | 0 < i < 32 ensures a[i] == b[i] {
      ShiftBit(a, i);
      ShiftBit(b, i);
    }
  }

  /** One input bit enters at the low end and is shifted through. */
  function BitStep(w: Word, bit: bool): Word {
    Shift(Xor(w, Load([bit])))
  }

  lemma BitStepInjective(c: Word, d: Word, bit: bool)
    requires BitStep(c, bit) == BitStep(d, bit)
    ensures c == d
  {
    ShiftInjective(Xor(c, Load([bit])), Xor(d, Load([bit])));
    forall i | 0 <= i < 32 ensures c[i] == d[i] {
      assert Xor(c, Load([bit]))[i] == Xor(d, Load([bit]))[i];
    }
  }

  /** The two registers agree in their `k` high-order bits. */
  predicate Close(c: Word, d: Word, k: nat) {
    forall i :: 0 <= i < 32 && 32 - k <= i ==> c[i] == d[i]
  }

  /** A step can only change the bits that it has had time to reach. */
  lemma CloseBackward(c: Word, d: Word, i: bool, j: bool, k: nat)
    requires k < 32 && Close(BitStep(c, i), BitStep(d, j), k + 1)
    ensures Close(c, d, k)
  {
    var x, y := Xor(c, Load([i])), Xor(d, Load([j]));
    ShiftLinear(x, y);
    ShiftBack(Xor(x, y), k);
    forall n | 32 - k <= n < 32 ensures c[n] == d[n] {
      assert Xor(x, y)[n] == (x[n] != y[n]);
    }
  }

  /** Different input bits put the registers apart in the highest bit. */
  lemma DifferentBitsApart(c: Word, i: bool, j: bool)
    requires i != j
    ensures !Close(BitStep(c, i), BitStep(c, j), 1)
  {
    TopOfPolynomial();
    assert BitStep(c, i)[31] == (Xor(c, Load([i]))[0] && POLYNOMIAL[31]);
    assert BitStep(c, j)[31] == (Xor(c, Load([j]))[0] && POLYNOMIAL[31]);
  }

  // ---------------------------------------------------------------- bytes as bits

  function Bits(data: seq<Byte>): (s: seq<bool>)
    ensures |s| == 8 * |data|
  {
    FlatLength(BitsOf, data, 8);
    Flat(BitsOf, data)
  }

  lemma PeelBit(w: Word, bits: seq<bool>)
    requires 0 < |bits| <= 32
    ensures Shift(Xor(w, Load(bits))) == Xor(BitStep(w, bits[0]), Load(bits[1..]))
  {
    var x, y := Xor(w, Load(bits)), Xor(w, Load([bits[0]]));
    forall i | 0 <= i < 32 ensures Shift(x)[i] == Xor(Shift(y), Load(bits[1..]))[i] {
      assert i < 31 ==> x[i + 1] == (y[i + 1] != Load(bits[1..])[i]);
    }
  }

  /** Loading several bits and then shifting is feeding them one at a time. */
  lemma {:induction false} LoadIsBitSteps(w: Word, bits: seq<bool>)
    requires |bits| <= 32
    ensures Iterate(Shift, Xor(w, Load(bits)), |bits|) == Run(BitStep, w, bits)
    decreases |bits|
  {
    if bits == [] {
      assert Xor(w, Load(bits)) == w;
    } else {
      PeelBit(w, bits);
      LoadIsBitSteps(BitStep(w, bits[0]), bits[1..]);
    }
  }

  lemma {:induction false} RunIsBits(w: Word, data: seq<Byte>)
    ensures Run(ByteStep, w, data) == Run(BitStep, w, Bits(data))
    decreases |data|
  {
    if data != [] {
      LoadIsBitSteps(w, BitsOf(data[0]));
      RunAppend(BitStep, w, BitsOf(data[0]), Bits(data[1..]));
      RunIsBits(ByteStep(w, data[0]), data[1..]);
    }
  }

  // ---------------------------------------------------------------- burst errors

  /** The strings differ, and only at positions in `[start, start + width)`. */
  ghost predicate Burst<T>(x: seq<T>, y: seq<T>, start: nat, width: nat) {
    |x| == |y| && x != y && forall i :: 0 <= i < |x| && !(start <= i < start + width) ==> x[i] == y[i]
  }

  lemma {:induction false} FirstDifference<T>(x: seq<T>, y: seq<T>) returns (k: nat)
    requires |x| == |y| && x != y
    ensures k < |x| && x[k] != y[k] && x[..k] == y[..k]
    decreases |x|
  {
    if x[0] != y[0] {
      k := 0;
    } else {
      assert x == [x[0]] + x[1..] && y == [y[0]] + y[1..];
      var j := FirstDifference(x[1..], y[1..]);
      k := j + 1;
      assert x[..k] == [x[0]] + x[1..][..j] && y[..k] == [y[0]] + y[1..][..j];
    }
  }

  lemma SliceSplit<T>(s: seq<T>, i: nat, j: nat)
    requires i <= j <= |s|
    ensures s[i..] == s[i..j] + s[j..]
  {
  }

  lemma RunSplit<R, I>(step: (R, I) -> R, c: R, x: seq<I>, k: nat, end: nat)
    requires k < end <= |x|
    ensures Run(step, c, x) == Run(step, Run(step, step(Run(step, c, x[..k]), x[k]), x[k + 1..end]), x[end..])
  {
    SliceSplit(x, 0, k);
    RunAppend(step, c, x[..k], x[k..]);
    assert x[k..][0] == x[k] && x[k..][1..] == x[k + 1..];
    SliceSplit(x, k + 1, end);
    RunAppend(step, step(Run(step, c, x[..k]), x[k]), x[k + 1..end], x[end..]);
  }

  /** No error burst of at most 32 bits leaves the register unchanged. */
  lemma BitBurstDetected(c: Word, x: seq<bool>, y: seq<bool>, start: nat, width: nat)
    requires Burst(x, y, start, width) && width <= 32
    ensures Run(BitStep, c, x) != Run(BitStep, c, y)
  {
    if Run(BitStep, c, x) == Run(BitStep, c, y) {
      var k := FirstDifference(x, y);
      assert start <= k < start + width;
      var end := if start + width < |x| then start + width else |x|;
      var r := Run(BitStep, c, x[..k]);
      var r1, r2 := BitStep(r, x[k]), BitStep(r, y[k]);
      RunSplit(BitStep, c, x, k, end);
      RunSplit(BitStep, c, y, k, end);
      var u, v := x[k + 1..end], y[k + 1..end];
      assert x[end..] == y[end..];
      BurstMeets(r1, r2, u, v, x[end..]);
      DifferentBitsApart(r, x[k], y[k]);
    }
  }

  lemma BurstMeets(r1: Word, r2: Word, u: seq<bool>, v: seq<bool>, tail: seq<bool>)
    requires |u| == |v| <= 31
    requires Run(BitStep, Run(BitStep, r1, u), tail) == Run(BitStep, Run(BitStep, r2, v), tail)
    ensures Close(r1, r2, 1)
  {
    forall c: Word, d: Word, i: bool | BitStep(c, i) == BitStep(d, i) ensures c == d {
      BitStepInjective(c, d, i);
    }
    RunInjective(BitStep, Run(BitStep, r1, u), Run(BitStep, r2, v), tail);
    forall c: Word, d: Word, i: bool, j: bool, k: nat | k < 32 && Close(BitStep(c, i), BitStep(d, j), k + 1)
      ensures Close(c, d, k)
    {
      CloseBackward(c, d, i, j, k);
    }
    RunMeeting(BitStep, Close, 32, r1, r2, u, v);
  }

  /** Any error burst of at most 32 bits, in the order in which bits are sent, changes the CRC. */
  lemma BurstOf32BitsDetected(x: seq<Byte>, y: seq<Byte>, start: nat, width: nat)
    requires |x| == |y| && Burst(Bits(x), Bits(y), start, width) && width <= 32
    ensures Checksum(x) != Checksum(y)
  {
    RunIsBits(ALL_ONES, x);
    RunIsBits(ALL_ONES, y);
    BitBurstDetected(ALL_ONES, Bits(x), Bits(y), start, width);
    NotInjective(Run(ByteStep, ALL_ONES, x), Run(ByteStep, ALL_ONES, y));
  }

  lemma NotInjective(a: Word, b: Word)
    requires a != b
    ensures Not(a) != Not(b)
  {
    if Not(a) == Not(b) {
      forall i | 0 <= i < 32 ensures a[i] == b[i] {
        assert Not(a)[i] == Not(b)[i];
      }
    }
  }

  lemma BitsAt(data: seq<Byte>, i: nat)
    requires i < 8 * |data|
    ensures Bits(data)[i] == BitsOf(data[i / 8])[i % 8]
  {
    FlatAt(BitsOf, data, 8, i / 8, i % 8);
  }

  lemma BitsOfInjective(a: Byte, b: Byte)
    requires BitsOf(a) == BitsOf(b)
    ensures a == b
  {
    assert Pow2(8) == 256;
    ValueOfBits(a, BYTE_BITS);
    ValueOfBits(b, BYTE_BITS);
  }

  function Value(s: seq<bool>): nat
    decreases |s|
  {
    if s == [] then 0 else (if s[0] then 1 else 0) + 2 * Value(s[1..])
  }

  function Pow2(n: nat): nat {
    if n == 0 then 1 else 2 * Pow2(n - 1)
  }

  lemma {:induction false} ValueOfBits(n: nat, count: nat)
    requires n < Pow2(count)
    ensures Value(BitsFrom(n, count)) == n
    decreases count
  {
    if count > 0 {
      ValueOfBits(n / 2, count - 1);
      assert BitsFrom(n, count)[1..] == BitsFrom(n / 2, count - 1);
    }
  }

  lemma DifferentBytesDifferentBits(x: seq<Byte>, y: seq<Byte>)
    requires |x| == |y| && x != y
    ensures Bits(x) != Bits(y)
  {
    var k := FirstDifference(x, y);
    if BitsOf(x[k]) == BitsOf(y[k]) {
      BitsOfInjective(x[k], y[k]);
    }
    var j := FirstDifference(BitsOf(x[k]), BitsOf(y[k]));
    var i := 8 * k + j;
    assert i / 8 == k && i % 8 == j;
    BitsAt(x, i);
    BitsAt(y, i);
  }

  /** Corruption confined to four consecutive bytes always changes the CRC. */
  lemma BurstOfFourBytesDetected(x: seq<Byte>, y: seq<Byte>, start: nat, width: nat)
    requires Burst(x, y, start, width) && width <= 4
    ensures Checksum(x) != Checksum(y)
  {
    DifferentBytesDifferentBits(x, y);
    forall i: nat | i < 8 * |x| && !(8 * start <= i < 8 * start + 8 * width)
      ensures Bits(x)[i] == Bits(y)[i]
    {
      BitsAt(x, i);
      BitsAt(y, i);
      assert !(start <= i / 8 < start + width);
    }
    BurstOf32BitsDetected(x, y, 8 * start, 8 * width);
  }

  // ---------------------------------------------------------------- the C++ loop

  function RightBy(w: Word, n: nat): Word {
    seq(32, i requires 0 <= i < 32 => i + n < 32 && w[i + n])
  }

  function And(a: Word, b: Word): Word {
    seq(32, i requires 0 <= i < 32 => a[i] && b[i])
  }

  /** `-(w & 1)` in unsigned arithmetic: all ones when the lowest bit is set, else zero. */
  function NegatedLowBit(w: Word): Word {
    if w[0] then ALL_ONES else ZERO
  }

  /** The masked form of the loop body is one step of the register. */
  lemma MaskedShift(w: Word)
    ensures Xor(RightBy(w, 1), And(POLYNOMIAL, NegatedLowBit(w))) == Shift(w)
  {
  }

  /** The inner loop: eight masked shifts. */
  method ShiftEight(register: Word) returns (crc: Word)
    ensures crc == Iterate(Shift, register, 8)
  {
    crc := register;
    var bit := 0;
    while bit < 8
      invariant bit <= 8
      invariant crc == Iterate(Shift, register, bit)
    {
      MaskedShift(crc);
      IterateLast(Shift, register, bit);
      var mask := NegatedLowBit(crc);
      crc := Xor(RightBy(crc, 1), And(POLYNOMIAL, mask));
      bit := bit + 1;
    }
  }

  /** The checksum: a register updated byte by byte and bit by bit. */
  method ComputeCrc(data: seq<Byte>) returns (result: U32)
    ensures result == Crc(data)
  {
    var crc := ALL_ONES;
    var index := 0;
    while index < |data|
      invariant index <= |data|
      invariant crc == Run(ByteStep, ALL_ONES, data[..index])
    {
      RunOneMore(ByteStep, ALL_ONES, data, index);
      crc := Xor(crc, Load(BitsOf(data[index])));
      crc := ShiftEight(crc);
      index := index + 1;
    }
    assert data[..|data|] == data;
    result := WordValue(Not(crc));
  }

  // ---------------------------------------------------------------- the checksum as a number

  /** The unsigned value of the checksum, as it is stored in a packet header. */
  function Crc(data: seq<Byte>): U32 {
    WordValue(Checksum(data))
  }

  function WordValue(w: Word): U32 {
    ValueBound(w);
    Pow2Of32();
    Value(w)
  }

  lemma Pow2Of32()
    ensures Pow2(32) == U32_LIMIT
  {
    assert Pow2(8) == 0x100;
    assert Pow2(16) == 0x1_0000;
    assert Pow2(24) == 0x100_0000;
  }

  lemma {:induction false} ValueBound(s: seq<bool>)
    ensures Value(s) < Pow2(|s|)
    decreases |s|
  {
    if s != [] {
      ValueBound(s[1..]);
    }
  }

  lemma {:induction false} ValueInjective(s: seq<bool>, t: seq<bool>)
    requires |s| == |t| && Value(s) == Value(t)
    ensures s == t
    decreases |s|
  {
    if s != [] {
      ValueInjective(s[1..], t[1..]);
      assert s == [s[0]] + s[1..] && t == [t[0]] + t[1..];
    }
  }

  /** Corruption confined to four consecutive bytes always changes the stored number. */
  lemma CrcDetectsBurst(x: seq<Byte>, y: seq<Byte>, start: nat, width: nat)
    requires Burst(x, y, start, width) && width <= 4
    ensures Crc(x) != Crc(y)
  {
    BurstOfFourBytesDetected(x, y, start, width);
    if Crc(x) == Crc(y) {
      ValueInjective(Checksum(x), Checksum(y));
    }
  }

  // ---------------------------------------------------------------- the table-driven form

  /** Entry `n` of the table of section 8 of RFC 1952. */
  function TableEntry(n: seq<bool>): Word {
    Iterate(Shift, Load(n), BYTE_BITS)
  }

  /** The table index is the low byte of the register xored with the data byte. */
  function TableStep(w: Word, b: Byte): Word {
    Xor(TableEntry(Xor(w, Load(BitsOf(b)))[..8]), RightBy(w, 8))
  }

  lemma {:induction false} EvenShifts(w: Word, n: nat)
    requires n <= 32 && forall i :: 0 <= i < n ==> !w[i]
    ensures Iterate(Shift, w, n) == RightBy(w, n)
    decreases n
  {
    if n == 0 {
      assert RightBy(w, 0) == w;
    } else {
      assert Shift(w) == RightBy(w, 1);
      EvenShifts(Shift(w), n - 1);
      assert RightBy(RightBy(w, 1), n - 1) == RightBy(w, n);
    }
  }

  lemma EightShiftsLinear(a: Word, b: Word)
    ensures Iterate(Shift, Xor(a, b), 8) == Xor(Iterate(Shift, a, 8), Iterate(Shift, b, 8))
  {
    forall a: Word, b: Word ensures Shift(Xor(a, b)) == Xor(Shift(a), Shift(b)) {
      ShiftLinear(a, b);
    }
    IterateLinear(Shift, Xor, a, b, 8);
  }

  lemma TableLookup(w: Word, bits: seq<bool>)
    requires |bits| == 8
    ensures Xor(TableEntry(Xor(w, Load(bits))[..8]), RightBy(w, 8)) == Iterate(Shift, Xor(w, Load(bits)), 8)
  {
    var x := Xor(w, Load(bits));
    var low, high := Load(x[..8]), seq(32, i requires 0 <= i < 32 => i >= 8 && x[i]);
    assert x == Xor(low, high);
    EightShiftsLinear(low, high);
    EvenShifts(high, 8);
    assert RightBy(high, 8) == RightBy(w, 8);
  }

  /** One table lookup does the work of eight shifts. */
  lemma TableStepAgrees(w: Word, b: Byte)
    ensures TableStep(w, b) == ByteStep(w, b)
  {
    TableLookup(w, BitsOf(b));
  }

  /** The table-driven loop computes the same register as the bit loop, for every input. */
  lemma {:induction false} TableRunAgrees(w: Word, data: seq<Byte>)
    ensures Run(TableStep, w, data) == Run(ByteStep, w, data)
    decreases |data|
  {
    if data != [] {
      TableStepAgrees(w, data[0]);
      TableRunAgrees(ByteStep(w, data[0]), data[1..]);
    }
  }
}
