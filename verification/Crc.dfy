/** CRC-32 and little-endian words, as sections 2.3.1 and 8 of RFC 1952 define them. */
module Crc {
  import opened Wrappers

  const WORD: nat := 0x1_0000_0000

  // ----- bits -----

  type Bits = seq<bool>

  function Zeros(n: nat): (r: Bits)
    ensures |r| == n
  {
    seq(n, _ => false)
  }

  function Ones(n: nat): (r: Bits)
    ensures |r| == n
  {
    seq(n, _ => true)
  }

  function Xor(a: Bits, b: Bits): (r: Bits)
    requires |a| == |b|
    ensures |r| == |a| && forall i :: 0 <= i < |a| ==> r[i] == (a[i] != b[i])
  {
    seq(|a|, i requires 0 <= i < |a| => a[i] != b[i])
  }

  /** The bits of a number, least significant first. */
  function BitsOf(value: nat, n: nat): (r: Bits)
    ensures |r| == n
  {
    if n == 0 then [] else [value % 2 == 1] + BitsOf(value / 2, n - 1)
  }

  function ValueOf(bits: Bits): nat {
    if bits == [] then 0 else (if bits[0] then 1 else 0) + 2 * ValueOf(bits[1..])
  }

  function Power(n: nat): nat {
    if n == 0 then 1 else 2 * Power(n - 1)
  }

  lemma {:induction false} ValueIsBelow(bits: Bits)
    ensures ValueOf(bits) < Power(|bits|)
    ensures BitsOf(ValueOf(bits), |bits|) == bits
  {
    if bits != [] {
      ValueIsBelow(bits[1..]);
    }
  }

  lemma PowerOfWord()
    ensures Power(32) == WORD
  {
    assert Power(8) == 256;
    assert Power(16) == 65536;
    assert Power(24) == 16777216;
  }

  /** The bits of a stream, in the order they go out: each byte's least significant bit first. */
  function StreamBits(bytes: seq<byte>): Bits {
    if bytes == [] then [] else StreamBits(bytes[..|bytes| - 1]) + BitsOf(bytes[|bytes| - 1], 8)
  }

  lemma {:induction false} StreamBitsAppend(a: seq<byte>, b: seq<byte>)
    ensures StreamBits(a + b) == StreamBits(a) + StreamBits(b)
    decreases |b|
  {
    if b == [] {
      assert a + b == a;
    } else {
      StreamBitsAppend(a, b[..|b| - 1]);
      AppendLast(a, b);
      Associate(StreamBits(a), StreamBits(b[..|b| - 1]), BitsOf(b[|b| - 1], 8));
    }
  }

  lemma {:induction false} ValueOfBits(value: nat, n: nat)
    requires value < Power(n)
    ensures ValueOf(BitsOf(value, n)) == value
  {
    if n > 0 {
      ValueOfBits(value / 2, n - 1);
      assert ([value % 2 == 1] + BitsOf(value / 2, n - 1))[1..] == BitsOf(value / 2, n - 1);
    }
  }

  /** Where the bits come from: each eight of them are a byte's, least significant first. */
  lemma {:induction false} StreamBit(bytes: seq<byte>, k: nat)
    requires k < |bytes|
    ensures |StreamBits(bytes)| == 8 * |bytes|
    ensures ValueOf(StreamBits(bytes)[8 * k..8 * k + 8]) == bytes[k]
  {
    var n := |bytes| - 1;
    var before, last := bytes[..n], BitsOf(bytes[n], 8);
    assert Power(8) == 256;
    ValueOfBits(bytes[n], 8);
    hide BitsOf, ValueOf;
    if n > 0 { StreamBit(before, if k < n then k else 0); }
    var bits := StreamBits(before);
    assert |bits| == 8 * n && StreamBits(bytes) == bits + last;
    hide StreamBits;
    EighthAt(bits, last, n, k);
  }

  lemma EighthAt(bits: Bits, last: Bits, n: nat, k: nat)
    requires |bits| == 8 * n && |last| == 8 && k <= n
    ensures (bits + last)[8 * k..8 * k + 8] == if k < n then bits[8 * k..8 * k + 8] else last
  {
  }

  // ----- the register -----

  type Register = bits: Bits | |bits| == 32 witness Zeros(32)

  /** The generator x^32 + x^26 + x^23 + x^22 + x^16 + x^12 + x^11 + x^10 + x^8 + x^7 + x^5 + x^4 + x^2 + x + 1. */
  const EXPONENTS: set<nat> := {32, 26, 23, 22, 16, 12, 11, 10, 8, 7, 5, 4, 2, 1, 0}

  /** Its coefficients but the first, highest power first: the word 0xEDB88320, least significant bit first. */
  const POLYNOMIAL: nat := 0xEDB8_8320

  /** One bit into the register: it moves down, and the polynomial is subtracted if a one falls out. */
  function Shift(register: Bits, bit: bool): (r: Bits)
    requires |register| == 32
    ensures |r| == 32
  {
    var moved := register[1..] + [false];
    if register[0] != bit then Xor(moved, BitsOf(POLYNOMIAL, 32)) else moved
  }

  function Fold(register: Bits, bits: Bits): (r: Bits)
    requires |register| == 32
    ensures |r| == 32
  {
    if bits == [] then register else Shift(Fold(register, bits[..|bits| - 1]), bits[|bits| - 1])
  }

  /** Feeding a stream in pieces gives the register of the whole. */
  lemma {:induction false} FoldAppend(register: Bits, a: Bits, b: Bits)
    requires |register| == 32
    ensures Fold(register, a + b) == Fold(Fold(register, a), b)
    decreases |b|
  {
    if b == [] {
      assert a + b == a;
    } else {
      FoldAppend(register, a, b[..|b| - 1]);
      AppendLast(a, b);
    }
  }

  function Complement(register: Bits): (r: Bits)
    ensures |r| == |register|
  {
    Xor(register, Ones(|register|))
  }

  function SumOf(register: Bits): (sum: nat)
    requires |register| == 32
    ensures sum < WORD
  {
    ValueIsBelow(Complement(register));
    PowerOfWord();
    ValueOf(Complement(register))
  }

  /** The checksum of a whole stream. */
  function Crc32(bytes: seq<byte>): (sum: nat)
    ensures sum < WORD
  {
    SumOf(Fold(Ones(32), StreamBits(bytes)))
  }

  // ----- what the checksum is -----

  /** The generator's coefficients, highest power first. */
  function Generator(): (g: Bits)
    ensures |g| == 33
  {
    seq(33, i requires 0 <= i < 33 => 32 - i in EXPONENTS)
  }

  /** The product of a polynomial and the generator, over the integers modulo 2. Appending a coefficient multiplies
      the polynomial by x and adds it. */
  function TimesGenerator(quotient: Bits): (product: Bits)
    ensures |product| == |quotient| + 32
  {
    if quotient == [] then Zeros(32)
    else
      var n := |quotient| - 1;
      var moved := TimesGenerator(quotient[..n]) + [false];
      if quotient[n] then Xor(moved, Zeros(n) + Generator()) else moved
  }

  /** The message times x^32, with its first 32 coefficients complemented. */
  function Dividend(message: Bits): (d: Bits)
    ensures |d| == |message| + 32
  {
    Xor(message + Zeros(32), Ones(32) + Zeros(|message|))
  }

  /** `dividend` is `quotient` times the generator, plus a remainder of fewer than 32 powers. */
  predicate Divides(dividend: Bits, quotient: Bits, remainder: Bits)
    requires |dividend| == |quotient| + 32 && |remainder| == 32
  {
    dividend == Xor(TimesGenerator(quotient), Zeros(|quotient|) + remainder)
  }

  lemma Nibble(value: nat, n: nat)
    ensures BitsOf(value, 4 + n)
         == [value % 2 == 1, value / 2 % 2 == 1, value / 4 % 2 == 1, value / 8 % 2 == 1] + BitsOf(value / 16, n)
  {
    assert value / 2 / 2 == value / 4 && value / 4 / 2 == value / 8 && value / 8 / 2 == value / 16;
    assert BitsOf(value, 4 + n) == [value % 2 == 1] + BitsOf(value / 2, 3 + n);
    assert BitsOf(value / 2, 3 + n) == [value / 2 % 2 == 1] + BitsOf(value / 4, 2 + n);
    assert BitsOf(value / 4, 2 + n) == [value / 4 % 2 == 1] + BitsOf(value / 8, 1 + n);
  }

  /** Its coefficients below the first, spelled out. */
  const COEFFICIENTS: Bits := [
      false, false, false, false, false, true, false, false,
      true, true, false, false, false, false, false, true,
      false, false, false, true, true, true, false, true,
      true, false, true, true, false, true, true, true]

  lemma LowHalf()
    ensures BitsOf(POLYNOMIAL, 32) == COEFFICIENTS[..16] + BitsOf(0xEDB8, 16)
  {
    hide BitsOf;
    Nibble(0xEDB88320, 28);
    Nibble(0xEDB8832, 24);
    Nibble(0xEDB883, 20);
    Nibble(0xEDB88, 16);
  }

  lemma HighHalf()
    ensures BitsOf(0xEDB8, 16) == COEFFICIENTS[16..]
  {
    hide BitsOf;
    Nibble(0xEDB8, 12);
    Nibble(0xEDB, 8);
    Nibble(0xED, 4);
    Nibble(0xE, 0);
    assert |BitsOf(0, 0)| == 0;
  }

  lemma WordIsCoefficients()
    ensures BitsOf(POLYNOMIAL, 32) == COEFFICIENTS
  {
    hide BitsOf;
    LowHalf();
    HighHalf();
    assert COEFFICIENTS[..16] + COEFFICIENTS[16..] == COEFFICIENTS;
  }

  lemma GeneratorIsCoefficients()
    ensures Generator() == [true] + COEFFICIENTS
  {
  }

  lemma PolynomialIsGenerator()
    ensures Generator() == [true] + BitsOf(POLYNOMIAL, 32)
  {
    hide BitsOf, Generator;
    WordIsCoefficients();
    GeneratorIsCoefficients();
  }

  // ----- the register is the remainder -----

  /** A bit more of the message moves the dividend up, and adds the bit below the first 32. */
  lemma DividendSnoc(message: Bits, bit: bool)
    ensures Dividend(message + [bit]) == Xor(Dividend(message) + [false], Zeros(|message|) + [bit] + Zeros(32))
  {
  }

  /** The register holds the remainder of the message so far, highest power first. */
  lemma {:induction false} RegisterIsRemainder(message: Bits) returns (quotient: Bits)
    ensures |quotient| == |message|
    ensures Divides(Dividend(message), quotient, Fold(Ones(32), message))
  {
    var n := |message|;
    if n == 0 {
      quotient := [];
      assert Dividend(message) == Ones(32);
    } else {
      var before, bit := message[..n - 1], message[n - 1];
      assert message == before + [bit];
      var q := RegisterIsRemainder(before);
      var register := Fold(Ones(32), before);
      quotient := q + [register[0] != bit];
      assert quotient[..n - 1] == q;
      DividendSnoc(before, bit);
      ShiftSubtracts(Dividend(before), TimesGenerator(q), n - 1, register, bit);
      assert Fold(Ones(32), message) == Shift(register, bit);
    }
  }

  /** One step of the division: what is left after the old quotient, and after the new one. */
  lemma ShiftSubtracts(dividend: Bits, product: Bits, n: nat, register: Bits, bit: bool)
    requires |register| == 32 && |dividend| == |product| == n + 32
    requires dividend == Xor(product, Zeros(n) + register)
    ensures var moved := product + [false];
            var more := if register[0] != bit then Xor(moved, Zeros(n) + Generator()) else moved;
            Xor(dividend + [false], Zeros(n) + [bit] + Zeros(32)) == Xor(more, Zeros(n + 1) + Shift(register, bit))
  {
    PolynomialIsGenerator();
    var polynomial := BitsOf(POLYNOMIAL, 32);
    assert Generator()[1..] == polynomial;
    hide BitsOf, Generator;
  }

  // ----- there is only one -----

  lemma AddedBelow(product: Bits, n: nat, g: Bits)
    requires |product| == n + 33 && |g| == 33 && g[0]
    ensures var sum := Xor(product, Zeros(n) + g);
            sum[..n] == product[..n] && sum[n] == !product[n]
  {
  }

  lemma TimesSnoc(quotient: Bits, coefficient: bool)
    ensures var moved := TimesGenerator(quotient) + [false];
            TimesGenerator(quotient + [coefficient])
              == if coefficient then Xor(moved, Zeros(|quotient|) + Generator()) else moved
  {
    assert (quotient + [coefficient])[..|quotient|] == quotient;
  }

  lemma PrefixStays(a: Bits, last: bool, n: nat)
    requires n <= |a|
    ensures (a + [last])[..n] == a[..n]
  {
  }

  lemma ProductPrefix(quotient: Bits, coefficient: bool)
    ensures var n, product := |quotient|, TimesGenerator(quotient + [coefficient]);
            && product[..n] == TimesGenerator(quotient)[..n]
            && product[n] == ((TimesGenerator(quotient) + [false])[n] != coefficient)
  {
    hide TimesGenerator, Generator, Xor;
    GeneratorIsCoefficients();
    TimesSnoc(quotient, coefficient);
    var moved := TimesGenerator(quotient) + [false];
    AddedBelow(moved, |quotient|, Generator());
    PrefixStays(TimesGenerator(quotient), false, |quotient|);
  }

  lemma {:induction false} ProductDetermines(p: Bits, q: Bits)
    requires |p| == |q| && TimesGenerator(p)[..|p|] == TimesGenerator(q)[..|q|]
    ensures p == q
  {
    if p != [] {
      var n := |p| - 1;
      assert p == p[..n] + [p[n]] && q == q[..n] + [q[n]];
      ProductPrefix(p[..n], p[n]);
      ProductPrefix(q[..n], q[n]);
      assert TimesGenerator(p)[..n + 1][..n] == TimesGenerator(p)[..n];
      assert TimesGenerator(q)[..n + 1][..n] == TimesGenerator(q)[..n];
      ProductDetermines(p[..n], q[..n]);
      assert TimesGenerator(p)[..n + 1][n] == TimesGenerator(q)[..n + 1][n];
    }
  }

  lemma OneRemainder(dividend: Bits, p: Bits, a: Bits, q: Bits, b: Bits)
    requires |p| == |q| && |a| == |b| == 32 && |dividend| == |p| + 32
    requires Divides(dividend, p, a) && Divides(dividend, q, b)
    ensures p == q && a == b
  {
    var n := |p|;
    var left, right := TimesGenerator(p), TimesGenerator(q);
    forall i | 0 <= i < n ensures left[i] == right[i] {
      assert dividend[i] == left[i] && dividend[i] == right[i];
    }
    assert left[..n] == right[..n];
    ProductDetermines(p, q);
    forall i | 0 <= i < 32 ensures a[i] == b[i] {
      assert dividend[n + i] == (left[n + i] != a[i]);
      assert dividend[n + i] == (right[n + i] != b[i]);
    }
  }

  /**
   * The checksum is the complement of the remainder of the message, its first 32 bits complemented and 32 zeros
   * behind it, divided by the generator; the remainder's highest power is the checksum's lowest bit. There is
   * exactly one such word.
   */
  lemma ChecksumIsRemainder(bytes: seq<byte>, word: nat)
    requires word < WORD
    ensures word == Crc32(bytes) <==>
            exists quotient :: |quotient| == |StreamBits(bytes)|
              && Divides(Dividend(StreamBits(bytes)), quotient, Complement(BitsOf(word, 32)))
  {
    var message := StreamBits(bytes);
    var register := Fold(Ones(32), message);
    var q := RegisterIsRemainder(message);
    ValueIsBelow(Complement(register));
    assert BitsOf(Crc32(bytes), 32) == Complement(register);
    assert Complement(Complement(register)) == register;
    if quotient :| |quotient| == |message| && Divides(Dividend(message), quotient, Complement(BitsOf(word, 32))) {
      OneRemainder(Dividend(message), q, register, quotient, Complement(BitsOf(word, 32)));
      assert Complement(Complement(BitsOf(word, 32))) == BitsOf(word, 32);
      PowerOfWord();
      BitsDetermine(word, 32);
    }
  }

  lemma {:induction false} BitsDetermine(value: nat, n: nat)
    requires value < Power(n)
    ensures ValueOf(BitsOf(value, n)) == value
  {
    if n > 0 {
      BitsDetermine(value / 2, n - 1);
      assert BitsOf(value, n)[1..] == BitsOf(value / 2, n - 1);
    }
  }

  // ----- the running checksum -----

  /** A running checksum and a byte count that wraps at 2^32. */
  datatype Running = Running(register: Register, amount: nat)

  const EMPTY := Running(Ones(32), 0)

  function Update(c: Running, bytes: seq<byte>): Running {
    Running(Fold(c.register, StreamBits(bytes)), (c.amount + |bytes|) % WORD)
  }

  function Sum(c: Running): (sum: nat)
    ensures sum < WORD
  {
    SumOf(c.register)
  }

  /** `c` is the running checksum of exactly these bytes. */
  ghost predicate Counts(c: Running, bytes: seq<byte>) {
    c.register == Fold(Ones(32), StreamBits(bytes)) && c.amount == |bytes| % WORD
  }

  lemma UpdateCounts(c: Running, seen: seq<byte>, more: seq<byte>)
    requires Counts(c, seen)
    ensures Counts(Update(c, more), seen + more)
  {
    hide Fold, StreamBits;
    FoldAppend(Ones(32), StreamBits(seen), StreamBits(more));
    StreamBitsAppend(seen, more);
    assert |seen + more| == |seen| + |more|;
    WrapAdd(|seen|, |more|);
  }

  lemma WrapAdd(a: nat, b: nat)
    ensures (a % WORD + b) % WORD == (a + b) % WORD
  {
    var q := a / WORD;
    assert a == q * WORD + a % WORD;
    assert a + b == q * WORD + (a % WORD + b);
    WrapMultiple(q, a % WORD + b);
  }

  lemma WrapMultiple(q: nat, r: nat)
    ensures (q * WORD + r) % WORD == r % WORD
  {
    if q > 0 {
      WrapMultiple(q - 1, r);
      assert (q * WORD + r) % WORD == ((q - 1) * WORD + r) % WORD;
    }
  }

  function Le32(n: nat): (s: seq<byte>)
    requires n < WORD
    ensures |s| == 4
  {
    [n % 256, n / 256 % 256, n / 65536 % 256, n / 16777216]
  }

  function FromLe32(s: seq<byte>): nat
    requires |s| == 4
  {
    (s[0] as int) + 256 * (s[1] as int) + 65536 * (s[2] as int) + 16777216 * (s[3] as int)
  }

  lemma Le32RoundTrip(n: nat)
    requires n < WORD
    ensures FromLe32(Le32(n)) == n
  {
    var q1, q2, q3 := n / 256, n / 65536, n / 16777216;
    assert q2 == q1 / 256 && q3 == q2 / 256;
    assert n == 256 * q1 + n % 256 && q1 == 256 * q2 + q1 % 256 && q2 == 256 * q3 + q2 % 256;
  }
}
