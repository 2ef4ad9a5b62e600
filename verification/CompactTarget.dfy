/** The compact form of 256-bit targets (primitives/src/compact.rs) and retargeting (verification/src/work.rs). */
module CompactTarget {
  import opened Primitives
  import opened Powers

  const TWO_POW_23: int := 0x80_0000
  const TWO_POW_24: int := 0x100_0000

  type U256 = x: int | 0 <= x < TWO_POW_256

  // ---- The code ----

  /** Number of bits of a value: `U256::bits`. */
  function Bits(v: nat): nat {
    if v == 0 then 0 else 1 + Bits(v / 2)
  }

  /** `v >> (8 * k)`. */
  function ShiftRight(v: nat, k: nat): nat {
    if k == 0 then v else ShiftRight(v / 256, k - 1)
  }

  /** `v << (8 * k)`, before the high bits are cut off. */
  function ShiftLeft(v: nat, k: nat): nat {
    if k == 0 then v else 256 * ShiftLeft(v, k - 1)
  }

  /** The number that `Compact::from_u256` computes: a size byte over a 23-bit mantissa. */
  function Encode(v: nat): nat {
    var size := (Bits(v) + 7) / 8;
    var compact := if size <= 3 then ShiftLeft(v, 3 - size) else ShiftRight(v, size - 3);
    if compact / TWO_POW_23 % 2 != 0 then compact / 256 + (size + 1) * TWO_POW_24
    else compact + size * TWO_POW_24
  }

  /** `Compact::to_u256`: an error carries the value as well. */
  function ToU256(c: u32): Result<U256, U256> {
    var size := c / TWO_POW_24;
    var mantissa := c % TWO_POW_23;
    var word := if size <= 3 then ShiftRight(mantissa, 3 - size) else mantissa;
    var result := if size <= 3 then word else ShiftLeft(word, size - 3) % TWO_POW_256;
    var isNegative := word != 0 && c / TWO_POW_23 % 2 != 0;
    var isOverflow := (word != 0 && size > 34) || (word > 0xff && size > 33) || (word > 0xffff && size > 32);
    assert 0 <= result < TWO_POW_256 by {
      ShiftRightSmaller(mantissa, if size <= 3 then 3 - size else 0);
    }
    if isNegative || isOverflow then Err(result) else Ok(result)
  }

  /** `U256::from(Compact)`: overflows and negative values are ignored. */
  function Target(c: u32): U256 {
    match ToU256(c)
    case Ok(value) => value
    case Err(value) => value
  }

  lemma {:induction false} ShiftRightSmaller(v: nat, k: nat)
    ensures ShiftRight(v, k) <= v
  {
    if k > 0 {
      ShiftRightSmaller(v / 256, k - 1);
    }
  }

  // ---- What survives the round trip ----

  /** Low bytes are dropped until the rest fits in 23 bits; `Unit` is the weight of the last byte kept. */
  function Truncated(v: nat): nat {
    if v < TWO_POW_23 then v else 256 * Truncated(v / 256)
  }

  function Unit(v: nat): nat {
    if v < TWO_POW_23 then 1 else 256 * Unit(v / 256)
  }

  lemma {:induction false} TruncatedBounds(v: nat)
    ensures Unit(v) >= 1 && Truncated(v) <= v < Truncated(v) + Unit(v)
    ensures v >= TWO_POW_23 ==> v >= 0x8000 * Unit(v)
  {
    if v >= TWO_POW_23 {
      TruncatedBounds(v / 256);
    }
  }

  lemma {:induction false} TruncatedMonotone(v: nat, w: nat)
    requires v <= w
    ensures Truncated(v) <= Truncated(w)
  {
    if v >= TWO_POW_23 {
      TruncatedMonotone(v / 256, w / 256);
    } else if w >= TWO_POW_23 {
      TruncatedKeepsSize(w);
    }
  }

  lemma {:induction false} TruncatedKeepsSize(v: nat)
    ensures v >= 0x8000 ==> Truncated(v) >= 0x8000
    ensures v >= TWO_POW_23 ==> Truncated(v) >= TWO_POW_23
  {
    if v >= TWO_POW_23 {
      TruncatedKeepsSize(v / 256);
    }
  }

  // ---- The encoding, one byte at a time ----

  lemma BitsBySteps(v: nat)
    requires v >= 256
    ensures Bits(v) == 8 + Bits(v / 256)
  {
    var a := v / 2;
    var b := a / 2;
    var c := b / 2;
    var d := c / 2;
    var e := d / 2;
    var f := e / 2;
    var g := f / 2;
    assert g / 2 == v / 256;
    assert Bits(v) == 1 + Bits(a) && Bits(a) == 1 + Bits(b) && Bits(b) == 1 + Bits(c) && Bits(c) == 1 + Bits(d);
    assert Bits(d) == 1 + Bits(e) && Bits(e) == 1 + Bits(f) && Bits(f) == 1 + Bits(g) && Bits(g) == 1 + Bits(g / 2);
  }

  lemma BitsOfByte(v: nat)
    requires 0 < v < 256
    ensures 1 <= Bits(v) <= 8
  {
    var a := v / 2;
    var b := a / 2;
    var c := b / 2;
    var d := c / 2;
    var e := d / 2;
    var f := e / 2;
    var g := f / 2;
    assert g / 2 == 0;
    assert Bits(g) <= 1;
    assert Bits(f) <= 2;
    assert Bits(e) <= 3;
    assert Bits(d) <= 4;
    assert Bits(c) <= 5;
    assert Bits(b) <= 6;
    assert Bits(a) <= 7;
  }

  /** Number of bytes of a value. */
  function Bytes(v: nat): nat {
    (Bits(v) + 7) / 8
  }

  lemma BytesBySteps(v: nat)
    ensures Bytes(v) == if v == 0 then 0 else 1 + Bytes(v / 256)
  {
    if v >= 256 {
      BitsBySteps(v);
    } else if v > 0 {
      BitsOfByte(v);
    }
  }

  lemma BytesSmall(v: nat)
    ensures v == 0 ==> Bytes(v) == 0
    ensures 1 <= v < 0x100 ==> Bytes(v) == 1
    ensures 0x100 <= v < 0x1_0000 ==> Bytes(v) == 2
    ensures 0x1_0000 <= v < TWO_POW_24 ==> Bytes(v) == 3
    ensures v >= TWO_POW_24 ==> Bytes(v) > 3
  {
    BytesBySteps(v);
    BytesBySteps(v / 256);
    BytesBySteps(v / 256 / 256);
    BytesBySteps(v / 256 / 256 / 256);
  }

  /** Small values: the mantissa is the value moved up so that the size byte says how far. */
  lemma FromSmall(v: nat)
    requires v < TWO_POW_23
    ensures Encode(v) ==
            if v == 0 then 0
            else if v < 0x80 then 0x1_0000 * v + TWO_POW_24
            else if v < 0x8000 then 0x100 * v + 2 * TWO_POW_24
            else v + 3 * TWO_POW_24
  {
    BytesSmall(v);
    assert ShiftLeft(v, 1) == 256 * ShiftLeft(v, 0);
    assert ShiftLeft(v, 2) == 256 * ShiftLeft(v, 1);
    assert ShiftLeft(0, 3) == 256 * ShiftLeft(0, 2);
  }

  /** Large values: one byte more costs the last byte and adds one to the size. */
  lemma FromLarge(v: nat)
    requires v >= TWO_POW_23
    ensures Encode(v) == Encode(v / 256) + TWO_POW_24
  {
    var q := v / 256;
    BytesBySteps(v);
    BytesSmall(v);
    BytesSmall(q);
    var size := Bytes(v);
    if size == 3 {
      assert ShiftLeft(v, 0) == v && ShiftLeft(q, 1) == 256 * ShiftLeft(q, 0);
    } else {
      assert ShiftRight(v, size - 3) == ShiftRight(q, size - 4);
      assert ShiftLeft(q, 0) == q && ShiftRight(q, 0) == q;
    }
  }

  /** The mantissa and the size of an encoding, and what they stand for. */
  lemma {:induction false} FromShape(v: nat) returns (m: nat, s: nat)
    requires v >= 0x8000
    ensures Encode(v) == m + s * TWO_POW_24 && 0x8000 <= m < TWO_POW_23 && s >= 3
    ensures ShiftLeft(m, s - 3) == Truncated(v)
    ensures forall j: nat, b: nat :: b <= TWO_POW_23 && v < ShiftLeft(b, j) ==> s < 3 + j || (s == 3 + j && m < b)
  {
    if v < TWO_POW_23 {
      FromSmall(v);
      m, s := v, 3;
    } else {
      FromLarge(v);
      var s0;
      m, s0 := FromShape(v / 256);
      s := s0 + 1;
      forall j: nat, b: nat | b <= TWO_POW_23 && v < ShiftLeft(b, j)
        ensures s < 3 + j || (s == 3 + j && m < b)
      {
        if j > 0 {
          assert v / 256 < ShiftLeft(b, j - 1);
        }
      }
    }
  }

  lemma ShiftFive(v: nat, k: nat)
    ensures ShiftLeft(v, k + 5) == 0x100_0000_0000 * ShiftLeft(v, k)
  {
    assert ShiftLeft(v, k + 5) == 256 * ShiftLeft(v, k + 4);
    assert ShiftLeft(v, k + 4) == 256 * ShiftLeft(v, k + 3);
    assert ShiftLeft(v, k + 3) == 256 * ShiftLeft(v, k + 2);
    assert ShiftLeft(v, k + 2) == 256 * ShiftLeft(v, k + 1);
  }

  lemma Highest()
    ensures ShiftLeft(0x1_0000, 30) == TWO_POW_256
  {
    ShiftFive(0x1_0000, 0);
    ShiftFive(0x1_0000, 5);
    ShiftFive(0x1_0000, 10);
    ShiftFive(0x1_0000, 15);
    ShiftFive(0x1_0000, 20);
    ShiftFive(0x1_0000, 25);
  }

  /** Decoding puts the mantissa back where the size says. */
  lemma Decode(m: nat, s: nat)
    requires m < TWO_POW_23 && 3 <= s < 256 && ShiftLeft(m, s - 3) < TWO_POW_256
    ensures m + s * TWO_POW_24 < TWO_POW_32 && ToU256(m + s * TWO_POW_24) == Ok(ShiftLeft(m, s - 3))
  {
    var c := m + s * TWO_POW_24;
    assert c / TWO_POW_24 == s && c % TWO_POW_23 == m && c / TWO_POW_23 % 2 == 0;
    if s == 3 {
      DecodeSmall(c, m);
    } else {
      DecodeLarge(c, ShiftLeft(m, s - 3));
    }
  }

  /** Encoding and decoding succeeds on every 256-bit value and drops exactly the bytes below `Unit`. */
  lemma RoundTrip(v: U256)
    ensures Encode(v) < TWO_POW_32
    ensures ToU256(Encode(v)) == Ok(Truncated(v))
  {
    if v < 0x8000 {
      SmallRoundTrip(v);
    } else {
      var m, s := FromShape(v);
      Highest();
      assert v < ShiftLeft(0x1_0000, 30);
      TruncatedBounds(v);
      Decode(m, s);
    }
  }

  /** `Compact::from_u256`. */
  function FromU256(v: U256): u32 {
    RoundTrip(v);
    Encode(v)
  }

  lemma SmallRoundTrip(v: nat)
    requires v < 0x8000
    ensures Encode(v) < TWO_POW_32 && ToU256(Encode(v)) == Ok(v)
  {
    FromSmall(v);
    if v == 0 {
      DecodeSized(0, 0, 0);
    } else if v < 0x80 {
      DecodeSized(0x1_0000 * v, 1, v);
    } else {
      DecodeSized(0x100 * v, 2, v);
    }
  }

  lemma DecodeSized(m: nat, size: nat, v: nat)
    requires m < TWO_POW_23 && size <= 3
    requires v ==
             if size == 0 then m / 0x100_0000
             else if size == 1 then m / 0x1_0000
             else if size == 2 then m / 0x100
             else m
    ensures ToU256(m + size * TWO_POW_24) == Ok(v)
  {
    var c := m + size * TWO_POW_24;
    assert c / TWO_POW_24 == size && c % TWO_POW_23 == m && c / TWO_POW_23 % 2 == 0;
    ScaledSmall(m, size);
    assert Weight(1) == 256 * Weight(0) && Weight(2) == 256 * Weight(1) && Weight(3) == 256 * Weight(2);
    DecodeSmall(c, v);
  }

  /** The encoding keeps no more than it decodes to: encoding the decoded value gives the same encoding. */
  lemma {:induction false} EncodingStable(v: nat)
    ensures Encode(Truncated(v)) == Encode(v) && Truncated(Truncated(v)) == Truncated(v)
  {
    if v >= TWO_POW_23 {
      EncodingStable(v / 256);
      TruncatedKeepsSize(v);
      FromLarge(v);
      StableStep(Truncated(v), Truncated(v / 256));
    }
  }

  lemma StableStep(w: nat, q: nat)
    requires w >= TWO_POW_23 && w == 256 * q
    ensures Encode(w) == Encode(q) + TWO_POW_24 && Truncated(w) == 256 * Truncated(q)
  {
    assert w / 256 == q;
    FromLarge(w);
  }

  /** No shorter size would do: the mantissa has a digit in its first byte, and its highest bit, the sign, is clear. */
  lemma EncodingNormal(v: nat)
    requires v > 0
    ensures 0x8000 <= Encode(v) % TWO_POW_24 < TWO_POW_23
  {
    if v < 0x80 {
      FromSmall(v);
      MantissaOf(0x1_0000 * v, 1);
    } else if v < 0x8000 {
      FromSmall(v);
      MantissaOf(0x100 * v, 2);
    } else {
      var m, s := FromShape(v);
      MantissaOf(m, s);
    }
  }

  lemma MantissaOf(m: nat, s: nat)
    requires m < TWO_POW_24
    ensures (m + s * TWO_POW_24) % TWO_POW_24 == m
  {
  }

  /** The decoded value never exceeds the original and is short of it by less than one part in 2^15. */
  lemma RoundTripLoss(v: U256)
    ensures Target(FromU256(v)) <= v
    ensures Target(FromU256(v)) == v || 0x8000 * (v - Target(FromU256(v))) < v
  {
    RoundTrip(v);
    TruncatedBounds(v);
  }

  lemma RoundTripMonotone(v: U256, w: U256)
    requires v <= w
    ensures Target(FromU256(v)) <= Target(FromU256(w))
  {
    RoundTrip(v);
    RoundTrip(w);
    TruncatedMonotone(v, w);
  }

  // ---- What a compact number stands for, and when it is refused ----

  /** Shifting left multiplies by a power of 256. */
  lemma {:induction false} ShiftLeftIs(v: nat, k: nat)
    ensures ShiftLeft(v, k) == v * Pow(256, k)
  {
    if k > 0 {
      ShiftLeftIs(v, k - 1);
      MulAssociate(v, 256, Pow(256, k - 1));
      MulAssociate(256, v, Pow(256, k - 1));
    }
  }

  lemma {:induction false} ShiftLeftOrder(v: nat, w: nat, k: nat)
    ensures v <= w <==> ShiftLeft(v, k) <= ShiftLeft(w, k)
  {
    if k > 0 {
      ShiftLeftOrder(v, w, k - 1);
    }
  }

  lemma {:induction false} ShiftLeftTwice(v: nat, j: nat, k: nat)
    ensures ShiftLeft(ShiftLeft(v, j), k) == ShiftLeft(v, j + k) >= ShiftLeft(v, j)
    ensures v == 0 ==> ShiftLeft(v, k) == 0
  {
    if k > 0 {
      ShiftLeftTwice(v, j, k - 1);
    }
  }

  /** 2^256 as a mantissa moved up `k` bytes. */
  lemma Limit(k: nat) returns (least: nat)
    requires 29 <= k <= 32
    ensures ShiftLeft(least, k) == TWO_POW_256
    ensures least == if k == 29 then TWO_POW_24 else if k == 30 then 0x1_0000 else if k == 31 then 0x100 else 1
  {
    least := if k == 29 then TWO_POW_24 else if k == 30 then 0x1_0000 else if k == 31 then 0x100 else 1;
    Highest();
    if k == 29 {
      assert ShiftLeft(0x1_0000, 1) == 256 * ShiftLeft(0x1_0000, 0);
      ShiftLeftTwice(0x1_0000, 1, 29);
    } else if k > 30 {
      assert ShiftLeft(least, 1) == 256 * ShiftLeft(least, 0) && ShiftLeft(least, 2) == 256 * ShiftLeft(least, 1);
      ShiftLeftTwice(least, k - 30, 30);
    }
  }

  lemma OverflowsAt(mantissa: nat, k: nat)
    requires mantissa < TWO_POW_24
    ensures ShiftLeft(mantissa, k) >= TWO_POW_256 <==>
            (mantissa != 0 && k >= 32) || (mantissa > 0xff && k >= 31) || (mantissa > 0xffff && k >= 30)
  {
    var j := if k < 29 then 29 else if k > 32 then 32 else k;
    var least := Limit(j);
    ShiftLeftOrder(least, mantissa, j);
    ShiftLeftTwice(mantissa, if k < 29 then k else j, if k < 29 then 29 - k else k - j);
    ShiftLeftTwice(mantissa, 0, k);
  }

  /** `mantissa * 256^(size - 3)`, without a fraction. */
  function Scaled(mantissa: nat, size: nat): nat {
    if size < 3 then Quotient(mantissa, Weight(3 - size)) else Product(mantissa, Weight(size - 3))
  }

  function Quotient(a: nat, b: nat): nat
    requires b >= 1
  {
    a / b
  }

  function Product(a: nat, b: nat): nat {
    a * b
  }

  function Weight(k: nat): (w: nat)
    ensures w == Pow(256, k) && w >= 1
  {
    if k == 0 then 1 else 256 * Weight(k - 1)
  }

  /** What a compact number stands for, without regard to its sign or to 256 bits. */
  function Meaning(c: u32): nat {
    Scaled(c % TWO_POW_23, c / TWO_POW_24)
  }

  lemma ScaledSmall(m: nat, size: nat)
    requires size <= 3
    ensures Scaled(m, size) == ShiftRight(m, 3 - size)
  {
    assert Weight(1) == 256 * Weight(0) && Weight(2) == 256 * Weight(1) && Weight(3) == 256 * Weight(2);
    var a, b := m / 256, m / 256 / 256;
    assert ShiftRight(m, 1) == ShiftRight(a, 0) == a;
    assert ShiftRight(m, 2) == ShiftRight(a, 1) == ShiftRight(b, 0) == b;
    assert ShiftRight(m, 3) == ShiftRight(a, 2) == ShiftRight(b, 1) == ShiftRight(b / 256, 0) == b / 256;
  }

  /** Negative values and values of more than 256 bits are errors. */
  function Verdict(value: nat, signed: bool): Result<U256, U256> {
    if (signed && value != 0) || value >= TWO_POW_256 then Err(value % TWO_POW_256) else Ok(value)
  }

  predicate IsSigned(c: u32) {
    c / TWO_POW_23 % 2 != 0
  }

  lemma DecodeSmall(c: u32, value: nat)
    requires c / TWO_POW_24 <= 3 && value == ShiftRight(c % TWO_POW_23, 3 - c / TWO_POW_24)
    ensures value < TWO_POW_256 && ToU256(c) == Verdict(value, IsSigned(c))
  {
    ShiftRightSmaller(c % TWO_POW_23, 3 - c / TWO_POW_24);
  }

  lemma DecodeLarge(c: u32, value: nat)
    requires c / TWO_POW_24 > 3 && value == ShiftLeft(c % TWO_POW_23, c / TWO_POW_24 - 3)
    ensures ToU256(c) == Verdict(value, IsSigned(c))
  {
    var k, mantissa := c / TWO_POW_24 - 3, c % TWO_POW_23;
    OverflowsAt(mantissa, k);
    ShiftLeftTwice(mantissa, 0, k);
    assert ShiftLeft(mantissa, 0) == mantissa;
  }

  lemma MeaningIs(c: u32)
    ensures var mantissa, size := c % TWO_POW_23, c / TWO_POW_24;
            Meaning(c) == if size <= 3 then ShiftRight(mantissa, 3 - size) else ShiftLeft(mantissa, size - 3)
  {
    var mantissa, size := c % TWO_POW_23, c / TWO_POW_24;
    if size <= 3 {
      ScaledSmall(mantissa, size);
    } else {
      ShiftLeftIs(mantissa, size - 3);
    }
  }

  /** Decoding gives the meaning; it fails exactly for a negative value and for one that needs more than 256 bits. */
  lemma ToU256Is(c: u32)
    ensures ToU256(c) == Verdict(Meaning(c), IsSigned(c))
  {
    var value := Meaning(c);
    MeaningIs(c);
    if c / TWO_POW_24 <= 3 {
      DecodeSmall(c, value);
    } else {
      DecodeLarge(c, value);
    }
  }

  // ---- Proof of work ----

  /** The target a header must meet exists and the header hash, as a number, does not exceed it. */
  predicate IsValidProofOfWorkHash(bits: u32, hash: Hash) {
    match ToU256(bits)
    case Ok(target) => hash <= target
    case Err(_) => false
  }

  /** Bits that are negative or too large let nothing pass; otherwise exactly the hashes up to their meaning pass. */
  lemma ProofOfWorkThreshold(bits: u32, hash: Hash)
    ensures IsValidProofOfWorkHash(bits, hash) <==>
            hash <= Meaning(bits) < TWO_POW_256 && (!IsSigned(bits) || Meaning(bits) == 0)
  {
    ToU256Is(bits);
  }

  // ---- Retargeting ----

  const TARGET_TIMESPAN_SECONDS: int := 2 * 7 * 24 * 60 * 60
  const RETARGETING_FACTOR: int := 4
  const MIN_TIMESPAN: int := TARGET_TIMESPAN_SECONDS / RETARGETING_FACTOR
  const MAX_TIMESPAN: int := TARGET_TIMESPAN_SECONDS * RETARGETING_FACTOR

  /** Seconds since the last retarget, kept within a factor of four of the intended time. */
  function RetargetTimespan(retargetTimestamp: u32, lastTimestamp: u32): (span: u32)
    ensures MIN_TIMESPAN <= span <= MAX_TIMESPAN
    ensures span == MIN_TIMESPAN || span <= lastTimestamp - retargetTimestamp
    ensures span == MAX_TIMESPAN || span >= lastTimestamp - retargetTimestamp
  {
    var timespan := lastTimestamp - retargetTimestamp;
    if timespan < MIN_TIMESPAN then MIN_TIMESPAN
    else if timespan > MAX_TIMESPAN then MAX_TIMESPAN
    else timespan
  }

  function Rescaled(product: nat): (r: nat)
    ensures r <= product
  {
    product / TARGET_TIMESPAN_SECONDS
  }

  /** The bits for a rescaled target, or those of the maximum if it is above that. */
  function Capped(retarget: U256, maxBits: u32): u32 {
    if retarget > Target(maxBits) then maxBits else FromU256(retarget)
  }

  function RetargetBits(before: nat, span: nat, maxBits: u32): u32
    requires before * span < TWO_POW_256
  {
    Capped(Rescaled(before * span), maxBits)
  }

  /** `work_required_retarget`, for targets whose product with the timespan fits 256 bits. */
  function WorkRequiredRetarget(retargetTimestamp: u32, lastTimestamp: u32, lastBits: u32, maxBits: u32): u32
    requires Target(lastBits) * RetargetTimespan(retargetTimestamp, lastTimestamp) < TWO_POW_256
  {
    RetargetBits(Target(lastBits), RetargetTimespan(retargetTimestamp, lastTimestamp), maxBits)
  }

  /** A retarget never allows more than the maximum, nor more than four times the old target, nor, unless the
      maximum stops it, less than the encodable part of a quarter of it. */
  lemma RetargetBounds(retargetTimestamp: u32, lastTimestamp: u32, lastBits: u32, maxBits: u32)
    requires Target(lastBits) * RetargetTimespan(retargetTimestamp, lastTimestamp) < TWO_POW_256
    ensures var before := Target(lastBits);
            var bits := WorkRequiredRetarget(retargetTimestamp, lastTimestamp, lastBits, maxBits);
            && Target(bits) <= Target(maxBits)
            && Target(bits) <= 4 * before
            && (bits == maxBits || Truncated(before / 4) <= Target(bits))
  {
    var before := Target(lastBits);
    var span := RetargetTimespan(retargetTimestamp, lastTimestamp);
    RetargetRange(before, span);
    var retarget := before * span / TARGET_TIMESPAN_SECONDS;
    if retarget <= Target(maxBits) {
      RoundTrip(retarget);
      TruncatedBounds(retarget);
      TruncatedMonotone(before / 4, retarget);
    }
  }

  lemma CappedMonotone(retarget: U256, easier: U256, maxBits: u32)
    requires retarget <= easier
    ensures Target(Capped(retarget, maxBits)) <= Target(Capped(easier, maxBits))
  {
    if easier <= Target(maxBits) {
      RoundTripMonotone(retarget, easier);
    } else if retarget <= Target(maxBits) {
      RoundTripLoss(retarget);
    }
  }

  /** A later last block never makes the target harder. */
  lemma RetargetMonotone(retargetTimestamp: u32, lastTimestamp: u32, laterTimestamp: u32, lastBits: u32, maxBits: u32)
    requires lastTimestamp <= laterTimestamp
    requires Target(lastBits) * RetargetTimespan(retargetTimestamp, laterTimestamp) < TWO_POW_256
    ensures Target(lastBits) * RetargetTimespan(retargetTimestamp, lastTimestamp) < TWO_POW_256
    ensures Target(WorkRequiredRetarget(retargetTimestamp, lastTimestamp, lastBits, maxBits)) <=
            Target(WorkRequiredRetarget(retargetTimestamp, laterTimestamp, lastBits, maxBits))
  {
    BitsMonotone(
      Target(lastBits), RetargetTimespan(retargetTimestamp, lastTimestamp),
      RetargetTimespan(retargetTimestamp, laterTimestamp), maxBits);
  }

  lemma BitsMonotone(before: nat, span: nat, longer: nat, maxBits: u32)
    requires span <= longer && before * longer < TWO_POW_256
    ensures before * span < TWO_POW_256
    ensures Target(RetargetBits(before, span, maxBits)) <= Target(RetargetBits(before, longer, maxBits))
  {
    ProductMonotone(before, span, longer);
    RescaledMonotone(before * span, before * longer);
    CappedMonotone(Rescaled(before * span), Rescaled(before * longer), maxBits);
  }

  lemma RescaledMonotone(a: nat, b: nat)
    requires a <= b
    ensures Rescaled(a) <= Rescaled(b)
  {
  }

  /** Blocks on schedule leave an encodable target as it is. */
  lemma RetargetSteady(retargetTimestamp: u32, lastTimestamp: u32, lastBits: u32, maxBits: u32)
    requires lastTimestamp - retargetTimestamp == TARGET_TIMESPAN_SECONDS
    requires Target(lastBits) * TARGET_TIMESPAN_SECONDS < TWO_POW_256 && Target(lastBits) <= Target(maxBits)
    ensures RetargetTimespan(retargetTimestamp, lastTimestamp) == TARGET_TIMESPAN_SECONDS
    ensures Target(WorkRequiredRetarget(retargetTimestamp, lastTimestamp, lastBits, maxBits)) ==
            Truncated(Target(lastBits))
  {
    assert Rescaled(Target(lastBits) * TARGET_TIMESPAN_SECONDS) == Target(lastBits);
    RoundTrip(Target(lastBits));
  }

  lemma RetargetRange(before: nat, span: nat)
    requires MIN_TIMESPAN <= span <= MAX_TIMESPAN
    ensures before / 4 <= before * span / TARGET_TIMESPAN_SECONDS <= 4 * before
  {
    ProductMonotone(before, MIN_TIMESPAN, span);
    ProductMonotone(before, span, MAX_TIMESPAN);
    QuotientRange(before, before * span);
  }

  lemma QuotientRange(before: nat, product: nat)
    requires before * MIN_TIMESPAN <= product <= before * MAX_TIMESPAN
    ensures before / 4 <= product / TARGET_TIMESPAN_SECONDS <= 4 * before
  {
  }

  lemma ProductMonotone(a: nat, b: int, c: int)
    requires b <= c
    ensures a * b <= a * c
  {
  }
}
