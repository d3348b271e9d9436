/** CRC-16/CCITT-FALSE and what it detects: the 16-bit shift register, the two
    trailer bytes, and exactly which damage to a frame passes a receiver's check. */
module Crc16 {
  import opened Bytes

  const POLYNOMIAL: word := 0x1021
  const INITIAL: word := 0xffff

  function Low(r: word): byte {
    r % 256
  }

  function High(r: word): byte {
    r / 256
  }

  function WordXor(a: word, b: word): (r: word)
    ensures r == Xor(a, b)
  {
    XorOfWords(a, b);
    Xor(a, b)
  }

  lemma {:induction false} XorOfWords(a: word, b: word)
    ensures Xor(a, b) < 65536
  {
    hide Xor;
    PowersOfTwo();
    XorParts(16, 0, a, 0, b);
  }

  lemma {:induction false} PowersOfTwo()
    ensures Pow2(4) == 16 && Pow2(8) == 256 && Pow2(12) == 4096
    ensures Pow2(15) == 32768 && Pow2(16) == 65536
  {
    hide Xor;
    assert Pow2(4) == 2 * Pow2(3) && Pow2(8) == 2 * Pow2(7) && Pow2(12) == 2 * Pow2(11);
    assert Pow2(6) == 2 * Pow2(5) && Pow2(10) == 2 * Pow2(9) && Pow2(14) == 2 * Pow2(13);
  }

  /** One turn of the inner loop: shift left, and fold in the polynomial when a bit falls out. */
  function BitStep(r: word): word {
    if r >= 0x8000 then WordXor(2 * r % 65536, POLYNOMIAL) else 2 * r
  }

  function Steps(r: word, n: nat): word
    decreases n
  {
    if n == 0 then r else Steps(BitStep(r), n - 1)
  }

  function Feed(r: word, b: byte): word {
    Steps(WordXor(r, 256 * b), 8)
  }

  function Register(r: word, data: seq<byte>): word
    decreases |data|
  {
    if data == [] then r else Register(Feed(r, data[0]), data[1..])
  }

  function Crc(data: seq<byte>): word {
    Register(INITIAL, data)
  }

  /** The payload followed by its checksum, low byte first. */
  function Sealed(payload: seq<byte>): seq<byte> {
    payload + [Low(Crc(payload)), High(Crc(payload))]
  }

  /** The receivers' test on a decoded frame of at least two bytes. */
  predicate Accepted(raw: seq<byte>)
    requires |raw| >= 2
  {
    var crc := Crc(raw[..|raw| - 2]);
    raw[|raw| - 2] == Low(crc) && raw[|raw| - 1] == High(crc)
  }

  /** The two nested loops over the accumulator. */
  method Compute(data: array<byte>, len: nat) returns (crc: word)
    requires len <= data.Length
    ensures crc == Crc(data[..len])
  {
    hide Xor;
    crc := INITIAL;
    var at := 0;
    while at < len
      invariant at <= len
      invariant Register(crc, data[at..len]) == Crc(data[..len])
    {
      ghost var before := crc;
      var shifted: word := 256 * (data[at] as int);
      crc := WordXor(crc, shifted);
      var bit := 0;
      while bit != 8
        invariant 0 <= bit <= 8
        invariant Steps(crc, 8 - bit) == Feed(before, data[at])
      {
        if crc >= 0x8000 {
          crc := WordXor(2 * crc % 65536, POLYNOMIAL);
        } else {
          crc := 2 * crc;
        }
        bit := bit + 1;
      }
      assert data[at..len][1..] == data[at + 1..len];
      at := at + 1;
    }
  }

  // --- One bit step: injective, and linear over exclusive-or ----------------

  /** The bit that falls out, times the polynomial it folds back. */
  function Feedback(r: word): word {
    if r >= 0x8000 then POLYNOMIAL else 0
  }

  lemma {:induction false} BitStepParts(r: word)
    ensures BitStep(r) == Xor(2 * (r % 0x8000), Feedback(r))
  {
    hide Xor;
    XorZero(2 * r);
  }

  lemma {:induction false} TopBit(a: word, b: word)
    ensures Xor(a, b) >= 0x8000 <==> (a >= 0x8000) != (b >= 0x8000)
    ensures Xor(a, b) % 0x8000 == Xor(a % 0x8000, b % 0x8000)
  {
    hide Xor;
    PowersOfTwo();
    var p, q := a / 0x8000, b / 0x8000;
    XorParts(15, p, a % 0x8000, q, b % 0x8000);
    assert a == p * 0x8000 + a % 0x8000 && b == q * 0x8000 + b % 0x8000;
    XorZero(0);
    XorZero(1);
    XorEqualIffZero(1, 1);
  }

  lemma {:induction false} FeedbackLinear(a: word, b: word)
    ensures Feedback(WordXor(a, b)) == Xor(Feedback(a), Feedback(b))
  {
    hide Xor;
    TopBit(a, b);
    XorEqualIffZero(POLYNOMIAL, POLYNOMIAL);
    XorZero(POLYNOMIAL);
    XorZero(0);
  }

  lemma {:induction false} BitStepLinear(a: word, b: word)
    ensures BitStep(WordXor(a, b)) == WordXor(BitStep(a), BitStep(b))
  {
    hide Xor;
    var u, v := a % 0x8000, b % 0x8000;
    BitStepParts(a);
    BitStepParts(b);
    BitStepParts(WordXor(a, b));
    TopBit(a, b);
    XorDigits(2 * u, 2 * v);
    FeedbackLinear(a, b);
    XorSwap(2 * u, Feedback(a), 2 * v, Feedback(b));
  }

  /** The low bit of the polynomial is set, so the low bit of the result tells
      whether a bit fell out, and the step can be undone. */
  lemma {:induction false} BitStepInjective(a: word, b: word)
    requires BitStep(a) == BitStep(b)
    ensures a == b
  {
    hide Xor;
    BitStepParts(a);
    BitStepParts(b);
    XorDigits(2 * (a % 0x8000), Feedback(a));
    XorDigits(2 * (b % 0x8000), Feedback(b));
    assert Feedback(a) == Feedback(b);
    XorRightInjective(2 * (a % 0x8000), 2 * (b % 0x8000), Feedback(a));
  }

  // --- Many steps -------------------------------------------------------------

  lemma {:induction false} StepsInjective(a: word, b: word, n: nat)
    requires Steps(a, n) == Steps(b, n)
    ensures a == b
    decreases n
  {
    hide Xor;
    if n > 0 {
      StepsInjective(BitStep(a), BitStep(b), n - 1);
      BitStepInjective(a, b);
    }
  }

  lemma {:induction false} StepsLinear(a: word, b: word, n: nat)
    ensures Steps(WordXor(a, b), n) == WordXor(Steps(a, n), Steps(b, n))
    decreases n
  {
    hide Xor;
    if n > 0 {
      BitStepLinear(a, b);
      StepsLinear(BitStep(a), BitStep(b), n - 1);
    }
  }

  lemma {:induction false} StepsSplit(r: word, m: nat, n: nat)
    ensures Steps(r, m + n) == Steps(Steps(r, m), n)
    decreases m
  {
    hide Xor;
    if m > 0 {
      StepsSplit(BitStep(r), m - 1, n);
    }
  }

  /** r doubled n times. */
  function Doubled(r: nat, n: nat): (d: nat)
    ensures d >= r
    decreases n
  {
    if n == 0 then r else Doubled(2 * r, n - 1)
  }

  lemma {:induction false} DoubledFour(r: nat)
    ensures Doubled(r, 0) == r && Doubled(r, 1) == 2 * r && Doubled(r, 2) == 4 * r
    ensures Doubled(r, 3) == 8 * r && Doubled(r, 4) == 16 * r
  {
    assert Doubled(16 * r, 0) == 16 * r;
    assert Doubled(8 * r, 1) == 16 * r && Doubled(8 * r, 0) == 8 * r;
    assert Doubled(4 * r, 2) == 16 * r && Doubled(4 * r, 1) == 8 * r && Doubled(4 * r, 0) == 4 * r;
    assert Doubled(2 * r, 3) == 16 * r && Doubled(2 * r, 2) == 8 * r && Doubled(2 * r, 1) == 4 * r;
  }

  /** While nothing falls out, a step doubles. */
  lemma {:induction false} ShiftOnly(r: word, n: nat)
    requires Doubled(r, n) < 65536
    ensures Steps(r, n) == Doubled(r, n)
    decreases n
  {
    hide Xor;
    if n > 0 {
      assert 2 * r <= Doubled(2 * r, n - 1);
      ShiftOnly(2 * r, n - 1);
    }
  }

  /** A byte at the bottom of the register only moves up: nothing falls out. */
  lemma {:induction false} LowByteSteps(y: byte)
    ensures Steps(y, 8) == 256 * y
  {
    hide Xor;
    DoubledFour(y);
    DoubledFour(16 * y);
    ShiftOnly(y, 4);
    ShiftOnly(16 * y, 4);
    StepsSplit(y, 4, 4);
  }

  // --- Bytes into the register ------------------------------------------------

  lemma {:induction false} FeedInjective(r1: word, r2: word, b: byte)
    requires Feed(r1, b) == Feed(r2, b)
    ensures r1 == r2
  {
    hide Xor;
    StepsInjective(WordXor(r1, 256 * b), WordXor(r2, 256 * b), 8);
    XorRightInjective(r1, r2, 256 * b);
  }

  lemma {:induction false} JoinBytes(b: byte, c: byte)
    ensures Xor(256 * b, c) == 256 * b + c
  {
    hide Xor;
    PowersOfTwo();
    XorParts(8, b, 0, 0, c);
    XorZero(b);
    XorZero(c);
  }

  /** Two bytes fed in a row act as one 16-bit number pushed through the register. */
  lemma {:induction false} FeedPair(r: word, b: byte, c: byte)
    ensures Feed(Feed(r, b), c) == Steps(Steps(WordXor(256 * b + c, r), 8), 8)
  {
    hide Xor, Steps;
    LowByteSteps(c);
    StepsLinear(WordXor(r, 256 * b), c, 8);
    JoinBytes(b, c);
    XorAssociates(r, 256 * b, c);
    XorCommutes(r, 256 * b + c);
  }

  lemma {:induction false} FeedPairInjective(r: word, b1: byte, c1: byte, b2: byte, c2: byte)
    requires Feed(Feed(r, b1), c1) == Feed(Feed(r, b2), c2)
    ensures b1 == b2 && c1 == c2
  {
    hide Xor, Feed, Steps;
    var w1, w2 := 256 * b1 + c1, 256 * b2 + c2;
    FeedPair(r, b1, c1);
    FeedPair(r, b2, c2);
    StepsInjective(Steps(WordXor(w1, r), 8), Steps(WordXor(w2, r), 8), 8);
    StepsInjective(WordXor(w1, r), WordXor(w2, r), 8);
    XorRightInjective(w1, w2, r);
  }

  lemma {:induction false} RegisterInjective(r1: word, r2: word, data: seq<byte>)
    requires Register(r1, data) == Register(r2, data)
    ensures r1 == r2
    decreases |data|
  {
    hide Xor;
    if data != [] {
      RegisterInjective(Feed(r1, data[0]), Feed(r2, data[0]), data[1..]);
      FeedInjective(r1, r2, data[0]);
    }
  }

  lemma {:induction false} RegisterConcat(r: word, a: seq<byte>, b: seq<byte>)
    ensures Register(r, a + b) == Register(Register(r, a), b)
    decreases |a|
  {
    hide Xor;
    if a == [] {
      assert a + b == b;
    } else {
      assert (a + b)[1..] == a[1..] + b;
      RegisterConcat(Feed(r, a[0]), a[1..], b);
    }
  }

  lemma {:induction false} RegisterOne(r: word, b: byte)
    ensures Register(r, [b]) == Feed(r, b)
  {
    hide Xor;
    assert [b][1..] == [];
    assert Register(Feed(r, b), []) == Feed(r, b);
  }

  lemma {:induction false} RegisterTwo(r: word, b: byte, c: byte)
    ensures Register(r, [b, c]) == Feed(Feed(r, b), c)
  {
    hide Xor;
    assert [b, c][1..] == [c];
    RegisterOne(Feed(r, b), c);
  }

  lemma {:induction false} CrcOfLast(payload: seq<byte>)
    requires payload != []
    ensures Crc(payload) == Feed(Register(INITIAL, payload[..|payload| - 1]), payload[|payload| - 1])
  {
    hide Xor;
    var head, last := payload[..|payload| - 1], payload[|payload| - 1];
    assert payload == head + [last];
    RegisterConcat(INITIAL, head, [last]);
    RegisterOne(Register(INITIAL, head), last);
  }

  // --- What damage the checksum notices ----------------------------------------

  /** Changing two neighbouring bytes, or only one of them, changes the
      checksum of a payload of any length. */
  lemma {:induction false} AdjacentBytesDetected(payload: seq<byte>, i: nat, b: byte, c: byte)
    requires i + 1 < |payload|
    requires b != payload[i] || c != payload[i + 1]
    ensures Crc(payload[i := b][i + 1 := c]) != Crc(payload)
  {
    hide Xor;
    var head, tail := payload[..i], payload[i + 2..];
    var old2, new2 := [payload[i], payload[i + 1]], [b, c];
    assert payload == head + (old2 + tail);
    assert payload[i := b][i + 1 := c] == head + (new2 + tail);
    var r := Register(INITIAL, head);
    RegisterConcat(INITIAL, head, old2 + tail);
    RegisterConcat(INITIAL, head, new2 + tail);
    RegisterConcat(r, old2, tail);
    RegisterConcat(r, new2, tail);
    RegisterTwo(r, payload[i], payload[i + 1]);
    RegisterTwo(r, b, c);
    if Crc(payload[i := b][i + 1 := c]) == Crc(payload) {
      RegisterInjective(Register(r, old2), Register(r, new2), tail);
      FeedPairInjective(r, payload[i], payload[i + 1], b, c);
      assert false;
    }
  }

  lemma {:induction false} LastByteDetected(payload: seq<byte>, b: byte)
    requires payload != [] && b != payload[|payload| - 1]
    ensures Crc(payload[|payload| - 1 := b]) != Crc(payload)
  {
    hide Xor;
    var changed := payload[|payload| - 1 := b];
    CrcOfLast(payload);
    CrcOfLast(changed);
    var r := Register(INITIAL, payload[..|payload| - 1]);
    assert changed[..|payload| - 1] == payload[..|payload| - 1];
    if Crc(changed) == Crc(payload) {
      FeedPairInjective(r, b, 0, payload[|payload| - 1], 0);
      assert false;
    }
  }

  /** Changing one byte changes the checksum of a payload of any length. */
  lemma {:induction false} OneByteDetected(payload: seq<byte>, i: nat, b: byte)
    requires i < |payload| && b != payload[i]
    ensures Crc(payload[i := b]) != Crc(payload)
  {
    hide Xor;
    if i + 1 < |payload| {
      assert payload[i := b] == payload[i := b][i + 1 := payload[i + 1]];
      AdjacentBytesDetected(payload, i, b, payload[i + 1]);
    } else {
      LastByteDetected(payload, b);
    }
  }

  lemma {:induction false} SealedIsAccepted(payload: seq<byte>)
    ensures Accepted(Sealed(payload))
  {
    hide Xor;
    assert Sealed(payload)[..|payload|] == payload;
  }

  // --- The boundary between payload and trailer ----------------------------------

  /** Four steps at once: the top nibble leaves and is folded back three times,
      at distances too far apart to overlap. */
  lemma {:induction false} TopNibble(h: nat)
    requires h < 16
    ensures Steps(4096 * h, 4) == 4129 * h
  {
    hide Xor;
    if h > 0 {
      var bit := if h >= 8 then 8 else if h >= 4 then 4 else if h >= 2 then 2 else 1;
      TopNibbleBit(bit);
      if h == bit {
      } else {
        TopNibble(h - bit);
        DisjointSum(bit, h - bit);
        StepsLinear(4096 * bit, 4096 * (h - bit), 4);
      }
    }
    assert h == 0 ==> Steps(0, 4) == 0 by {
      assert BitStep(0) == 0;
      assert Steps(0, 4) == Steps(0, 3) && Steps(0, 3) == Steps(0, 2);
    }
  }

  lemma {:induction false} TopNibbleBit(bit: nat)
    requires bit == 1 || bit == 2 || bit == 4 || bit == 8
    ensures Steps(4096 * bit, 4) == 4129 * bit
  {
    hide Xor;
    var shifts := if bit == 8 then 0 else if bit == 4 then 1 else if bit == 2 then 2 else 3;
    DoubledFour(4096 * bit);
    DoubledFour(POLYNOMIAL);
    ShiftOnly(4096 * bit, shifts);
    StepsSplit(4096 * bit, shifts, 4 - shifts);
    XorZero(POLYNOMIAL);
    assert BitStep(0x8000) == POLYNOMIAL;
    ShiftOnly(POLYNOMIAL, 3 - shifts);
  }

  /** Numbers below sixteen that share no binary digit add without carry, at every offset used here. */
  lemma {:induction false} DisjointSum(bit: nat, rest: nat)
    requires bit == 1 || bit == 2 || bit == 4 || bit == 8
    requires rest < bit
    ensures Xor(4096 * bit, 4096 * rest) == 4096 * (bit + rest)
    ensures Xor(4129 * bit, 4129 * rest) == 4129 * (bit + rest)
  {
    hide Xor;
    PowersOfTwo();
    NibbleXor(bit, rest);
    XorParts(12, bit, 33 * bit, rest, 33 * rest);
    XorParts(12, bit, 0, rest, 0);
    XorZero(0);
    assert Pow2(5) == 32 by { assert Pow2(5) == 2 * Pow2(4); }
    XorParts(5, bit, bit, rest, rest);
  }

  lemma {:induction false} NibbleXor(bit: nat, rest: nat)
    requires bit == 1 || bit == 2 || bit == 4 || bit == 8
    requires rest < bit
    ensures Xor(bit, rest) == bit + rest
  {
    hide Xor;
    var n := if bit == 8 then 3 else if bit == 4 then 2 else if bit == 2 then 1 else 0;
    assert Pow2(0) == 1 && Pow2(1) == 2 && Pow2(2) == 4 && Pow2(3) == 8;
    XorParts(n, 1, 0, 0, rest);
    XorZero(1);
    XorZero(rest);
  }

  lemma {:induction false} FourSteps(h: nat, l: nat)
    requires h < 16 && l < 4096
    ensures 16 * l < 65536 && 4096 * h + l < 65536
    ensures Steps(4096 * h + l, 4) == Xor(16 * l, 4129 * h)
  {
    hide Xor, Steps;
    PowersOfTwo();
    XorParts(12, h, 0, 0, l);
    XorZero(h);
    XorZero(l);
    StepsLinear(4096 * h, l, 4);
    TopNibble(h);
    DoubledFour(l);
    ShiftOnly(l, 4);
    XorCommutes(4129 * h, 16 * l);
    assert Steps(l, 4) == 16 * l;
  }

  lemma {:induction false} OnlyPattern()
    ensures Xor(528 * 8, 4129) == 0xa1
  {
    hide Xor;
    PowersOfTwo();
    XorParts(8, 16, 128, 16, 33);
    XorEqualIffZero(16, 16);
    XorParts(4, 8, 0, 2, 1);
    NibbleXor(8, 2);
    XorZero(1);
  }

  /** Where the second nibble's feedback can reach: the high byte vanishes only for h == 8k. */
  lemma {:induction false} SplitSecondHalf(h: nat, k: nat)
    requires h < 16 && k < 16
    ensures Xor(528 * h, 4129 * k) < 256 <==> (h == 0 && k == 0) || (h == 8 && k == 1)
    ensures h == 0 && k == 0 ==> Xor(528 * h, 4129 * k) == 0
    ensures h == 8 && k == 1 ==> Xor(528 * h, 4129 * k) == 0xa1
  {
    hide Xor;
    PowersOfTwo();
    XorParts(8, 528 * h / 256, 528 * h % 256, 4129 * k / 256, 4129 * k % 256);
    XorEqualIffZero(528 * h / 256, 4129 * k / 256);
    assert 528 * h / 256 == 2 * h;
    assert 4129 * k / 256 == 16 * k + (if k >= 8 then 1 else 0);
    if h == 0 && k == 0 {
      XorZero(0);
    }
    if h == 8 && k == 1 {
      OnlyPattern();
    }
  }

  lemma {:induction false} NibblePattern(h: nat, m: nat)
    requires h < 16 && m < 16
    ensures Xor(m, h) < 16
    ensures h == 0 && Xor(m, h) == 0 <==> h == 0 && m == 0
    ensures h == 8 && Xor(m, h) == 1 <==> h == 8 && m == 9
  {
    hide Xor;
    PowersOfTwo();
    XorParts(4, 0, m, 0, h);
    XorZero(m);
    NibbleXor(8, 1);
    XorCommutes(8, 1);
    XorCancels(1, 8);
    if h == 8 && Xor(m, h) == 1 {
      XorCancels(m, h);
    }
  }

  /** The image of a last-byte difference x: only 0 and 0x89 leave the high checksum byte alone. */
  lemma {:induction false} HighByteKept(x: byte)
    ensures Steps(256 * x, 8) < 256 <==> x == 0 || x == 0x89
    ensures x == 0 ==> Steps(256 * x, 8) == 0
    ensures x == 0x89 ==> Steps(256 * x, 8) == 0xa1
  {
    hide Xor, Steps;
    var h, m := x / 16, x % 16;
    var k := Xor(m, h);
    NibblePattern(h, m);
    FirstNibble(h, m);
    StepsSplit(256 * x, 4, 4);
    FourSteps(k, 33 * h);
    SplitSecondHalf(h, k);
    assert 16 * (33 * h) == 528 * h;
  }

  lemma {:induction false} FirstNibble(h: nat, m: nat)
    requires h < 16 && m < 16
    ensures Xor(m, h) < 16
    ensures Steps(256 * (16 * h + m), 4) == 4096 * Xor(m, h) + 33 * h
  {
    hide Xor, Steps;
    PowersOfTwo();
    NibblePattern(h, m);
    FourSteps(h, 256 * m);
    XorParts(12, m, 0, h, 33 * h);
    XorZero(33 * h);
    assert 16 * (256 * m) == m * 4096 && h * 4096 + 33 * h == 4129 * h;
  }

  lemma {:induction false} DifferenceBytes(r: word, was: word, c: byte)
    ensures Low(r) == c && High(r) == High(was) <==>
      Xor(r, was) < 256 && Xor(r, was) == Xor(c, Low(was))
  {
    hide Xor;
    PowersOfTwo();
    XorParts(8, High(r), Low(r), High(was), Low(was));
    XorEqualIffZero(High(r), High(was));
    XorParts(8, 0, c, 0, Low(was));
    if Xor(r, was) < 256 && Xor(r, was) == Xor(c, Low(was)) {
      XorRightInjective(Low(r), c, Low(was));
    }
  }

  /** The difference between two checksums depends only on the difference between the last bytes. */
  lemma {:induction false} LastByteDifference(r: word, b: byte, was: byte)
    ensures Xor(b, was) < 256
    ensures Xor(Feed(r, b), Feed(r, was)) == Steps(256 * Xor(b, was), 8)
  {
    hide Xor, Steps;
    PowersOfTwo();
    XorParts(8, 0, b, 0, was);
    XorParts(8, b, 0, was, 0);
    StepsLinear(WordXor(r, 256 * b), WordXor(r, 256 * was), 8);
    XorSwap(r, 256 * b, r, 256 * was);
    XorEqualIffZero(r, r);
    XorZero(256 * Xor(b, was));
  }

  /** Damage across the boundary between payload and trailer. The low checksum
      byte is sent first, so this pair is not adjacent in the polynomial, and
      exactly one pattern of bit flips passes. */
  lemma {:induction false} StraddlingDamage(payload: seq<byte>, b: byte, c: byte)
    requires payload != []
    ensures
      var changed := payload[|payload| - 1 := b];
      Low(Crc(changed)) == c && High(Crc(changed)) == High(Crc(payload)) <==>
        || (b == payload[|payload| - 1] && c == Low(Crc(payload)))
        || (Xor(b, payload[|payload| - 1]) == 0x89 && Xor(c, Low(Crc(payload))) == 0xa1)
  {
    hide Xor;
    var last := payload[|payload| - 1];
    var changed := payload[|payload| - 1 := b];
    assert changed[..|payload| - 1] == payload[..|payload| - 1];
    CrcOfLast(payload);
    CrcOfLast(changed);
    LastByteDifference(Register(INITIAL, payload[..|payload| - 1]), b, last);
    HighByteKept(Xor(b, last));
    DifferenceBytes(Crc(changed), Crc(payload), c);
    XorEqualIffZero(b, last);
    XorEqualIffZero(c, Low(Crc(payload)));
  }

  /** A sealed frame with any two neighbouring bytes replaced (at least one of
      them changed) passes the check if and only if the damage is the one
      straddling pattern: 0x89 on the last payload byte, 0xA1 on the next. */
  lemma {:induction false} DamagedPairAccepted(payload: seq<byte>, i: nat, b: byte, c: byte)
    requires payload != [] && i <= |payload|
    ensures
      var raw := Sealed(payload);
      b != raw[i] || c != raw[i + 1] ==>
        (Accepted(raw[i := b][i + 1 := c]) <==>
          i == |payload| - 1 && Xor(b, raw[i]) == 0x89 && Xor(c, raw[i + 1]) == 0xa1)
  {
    hide Xor;
    var n := |payload|;
    var raw := Sealed(payload)[i := b][i + 1 := c];
    if b == Sealed(payload)[i] && c == Sealed(payload)[i + 1] {
    } else if i + 1 < n {
      assert raw[..n] == payload[i := b][i + 1 := c];
      AdjacentBytesDetected(payload, i, b, c);
    } else if i == n - 1 {
      assert raw[..n] == payload[n - 1 := b];
      StraddlingDamage(payload, b, c);
    } else {
      assert raw[..n] == payload;
    }
  }

  /** No frame with exactly one damaged byte, payload or trailer, is accepted. */
  lemma {:induction false} DamagedByteRejected(payload: seq<byte>, i: nat, b: byte)
    requires payload != [] && i < |payload| + 2
    ensures b != Sealed(payload)[i] ==> !Accepted(Sealed(payload)[i := b])
  {
    hide Xor;
    var raw := Sealed(payload);
    if i + 1 < |raw| {
      assert raw[i := b] == raw[i := b][i + 1 := raw[i + 1]];
      DamagedPairAccepted(payload, i, b, raw[i + 1]);
      XorEqualIffZero(raw[i + 1], raw[i + 1]);
    } else {
      assert raw[i := b] == raw[i - 1 := raw[i - 1]][i := b];
      DamagedPairAccepted(payload, i - 1, raw[i - 1], b);
      XorEqualIffZero(raw[i - 1], raw[i - 1]);
    }
  }

  // --- Where the register starts ------------------------------------------------------------

  /** Known checksums: they fix the initial value, the shifts and the polynomial. */
  lemma KnownChecksums()
    ensures Crc([]) == 0xffff
    ensures Crc([0xff]) == 0xff00
    ensures Crc([0xff, 0xff]) == 0
    ensures Crc([0xff, 0xff, 0x01]) == 0x1021
  {
    hide Xor, Steps;
    OnesAgainstOnes();
    XorZero(0x0100);
    XorZero(0x1021);
    XorEqualIffZero(0xff00, 0xff00);
    LowByteSteps(0xff);
    LowByteSteps(0);
    assert Steps(0x0100, 8) == 0x1021 by { OneBit(); }
    assert [0xff][1..] == [] && [0xff, 0xff][1..] == [0xff] && [0xff, 0xff, 0x01][1..] == [0xff, 0x01] && [0xff, 0x01][1..] == [0x01];
    assert [0x01][1..] == [];
  }

  lemma OnesAgainstOnes()
    ensures Xor(0xffff, 0xff00) == 0x00ff
  {
    hide Xor;
    PowersOfTwo();
    XorParts(8, 0xff, 0xff, 0xff, 0);
    XorZero(0xff);
    XorEqualIffZero(0xff, 0xff);
  }

  lemma OneBit()
    ensures Steps(0x0100, 8) == 0x1021
  {
    hide Xor;
    XorZero(0x1021);
    assert Steps(0x0100, 8) == Steps(0x0200, 7) == Steps(0x0400, 6) == Steps(0x0800, 5) == Steps(0x1000, 4);
    assert Steps(0x1000, 4) == Steps(0x2000, 3) == Steps(0x4000, 2) == Steps(0x8000, 1) == Steps(0x1021, 0);
  }
}
